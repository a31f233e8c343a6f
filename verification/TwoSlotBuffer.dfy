/** The buffer as the object the two threads share, and a producer's view of it
    with the writer thread running at the mercy of the scheduler. */
module TwoSlot {
  import opened Octets
  import P = Pipeline

  /** Each method is one mutex-held body; its `requires` is the predicate the
      condition variable waits for, or what the calling thread holds. */
  class TwoSlotBuffer {
    const capacity: nat
    var slots: seq<Bytes>
    var lens: seq<nat>
    var producerSlot: int
    var consumerSlot: int
    var free: seq<int>
    var ready: seq<int>
    var done: bool

    function Value(): P.Buffer
      reads this
    {
      P.Buffer(slots, lens, producerSlot, consumerSlot, free, ready, done)
    }

    constructor (slotCapacity: nat)
      ensures capacity == slotCapacity
      ensures Value() == P.NewBuffer(slotCapacity)
    {
      capacity := slotCapacity;
      slots := [Zeros(slotCapacity), Zeros(slotCapacity)];
      lens := [0, 0];
      producerSlot, consumerSlot := -1, -1;
      free, ready, done := [0, 1], [], false;
    }

    method NextWritable()
      requires free != []
      modifies this
      ensures Value() == P.NextWritable(old(Value()))
    {
      producerSlot := free[0];
      free := free[1..];
    }

    method Publish(filledLen: nat)
      requires 0 <= producerSlot < |lens|
      modifies this
      ensures Value() == P.PublishSlot(old(Value()), filledLen)
    {
      lens := lens[producerSlot := filledLen];
      ready := ready + [producerSlot];
    }

    method Finish()
      modifies this
      ensures Value() == P.MarkDone(old(Value()))
    {
      done := true;
    }

    /** `None` is the null pointer: nothing ready and the producer is done. */
    method WaitReady() returns (len: Option<nat>)
      requires ready != [] || done
      requires ready != [] ==> 0 <= ready[0] < |lens|
      modifies this
      ensures old(ready) == [] ==> len == None && Value() == old(Value())
      ensures old(ready) != [] ==> len == Some(old(lens[ready[0]])) && Value() == P.TakeReady(old(Value()))
    {
      if ready == [] {
        return None;
      }
      consumerSlot := ready[0];
      ready := ready[1..];
      return Some(lens[consumerSlot]);
    }

    method DoneWith()
      modifies this
      ensures Value() == P.DoneWith(old(Value()))
    {
      free := free + [consumerSlot];
    }

    /** A write through the pointer that `NextWritable` handed out. */
    method Store(i: nat, x: byte)
      requires 0 <= producerSlot < |slots| && i < |slots[producerSlot]|
      modifies this
      ensures Value() == P.StoreByte(old(Value()), i, x)
    {
      var slot: Bytes := slots[producerSlot];
      slots := slots[producerSlot := slot[..i] + [x] + slot[i + 1..]];
    }
  }

  /** A socket loop's use of the buffer, with the writer thread and its file.
      Between any two of the producer's steps the writer takes as many steps as
      the scheduler likes (`WriterRuns`); the producer waits for it only where
      the code does, in `Acquire` and in `FinishAndJoin`.  What holds of these
      methods holds in every interleaving. */
  class Transfer {
    const slots: TwoSlotBuffer
    var producer: P.Producer
    var writer: P.Consumer
    var file: Bytes
    /** The history: what the loop without a second thread would have written. */
    ghost var serial: P.Serial

    function State(): P.Pipe
      reads this, slots
    {
      P.Pipe(slots.capacity, slots.Value(), producer, writer, file)
    }

    ghost predicate Valid()
      reads this, slots
    {
      P.Inv(State(), serial)
    }

    constructor (capacity: nat, start: Bytes)
      ensures Valid() && fresh(slots)
      ensures slots.capacity == capacity
      ensures producer == P.Outside
      ensures serial.out == start
    {
      slots := new TwoSlotBuffer(capacity);
      producer := P.Outside;
      writer := P.Polling;
      file := start;
      serial := P.Serial(map[], start);
      P.StartKeeps(capacity, start);
    }

    /** `file.write`, one byte of the slot in hand. */
    method WriteByte()
      requires Valid() && P.Enabled(State(), P.Copy)
      modifies this
      ensures State() == P.Apply(old(State()), P.Copy) && serial == old(serial)
    {
      file := file + [slots.slots[slots.consumerSlot][writer.written]];
      writer := P.Writing(writer.count, writer.written + 1);
    }

    method ReleaseSlot()
      requires Valid() && P.Enabled(State(), P.Release)
      modifies this, slots
      ensures State() == P.Apply(old(State()), P.Release) && serial == old(serial)
    {
      slots.DoneWith();
      producer := P.WakeProducer(producer);
      writer := P.Polling;
    }

    /** `wait_ready`, once: take a slot, go to sleep, or leave the loop. */
    method PollReady() returns (ghost s: P.Step)
      requires Valid() && writer.Polling?
      modifies this, slots
      ensures s == P.NextConsumerStep(old(State()))
      ensures State() == P.Apply(old(State()), s) && serial == old(serial)
    {
      s := P.NextConsumerStep(State());
      if slots.ready == [] && !slots.done {
        writer := P.AsleepReady;
      } else {
        var len := slots.WaitReady();
        writer := if len == None then P.Exited else P.Writing(len.value, 0);
      }
    }

    /** One step of the writer's loop. */
    method WriterStep()
      requires Valid()
      requires writer.Polling? || writer.Writing?
      modifies this, slots
      ensures Valid() && serial == old(serial)
      ensures producer == old(producer) || (old(producer.AsleepFree?) && producer.Requesting?)
      ensures slots.done == old(slots.done)
      ensures P.Work(State()) < old(P.Work(State()))
    {
      ghost var s := P.NextConsumerStep(State());
      if writer.Polling? {
        s := PollReady();
      } else if writer.written < writer.count {
        WriteByte();
      } else {
        ReleaseSlot();
      }
      P.WorkShrinks(old(State()), old(serial), s, State(), serial);
    }

    method WriterRuns()
      requires Valid()
      modifies this, slots
      ensures Valid() && serial == old(serial)
      ensures producer == old(producer) || (old(producer.AsleepFree?) && producer.Requesting?)
      ensures slots.done == old(slots.done)
    {
      var go: bool := *;
      while go && (writer.Polling? || writer.Writing?)
        invariant Valid() && serial == old(serial)
        invariant producer == old(producer) || (old(producer.AsleepFree?) && producer.Requesting?)
        invariant slots.done == old(slots.done)
        decreases P.Work(State())
      {
        WriterStep();
        go := *;
      }
    }

    /** `next_writable`: returns, in every schedule, with a slot held. */
    method Acquire()
      requires Valid() && producer.Outside?
      modifies this, slots
      ensures Valid() && producer.Holding?
      ensures serial == P.Serial(map[], old(serial.out))
    {
      WriterRuns();
      Step(P.Request);
      while slots.free == []
        invariant Valid() && serial == old(serial)
        invariant producer.Requesting? || producer.AsleepFree?
        decreases P.Work(State())
      {
        if producer.Requesting? {
          Step(P.ProducerSleeps);
        }
        P.NotStuck(State(), serial);
        WriterStep();
      }
      TakeFree();
    }

    method TakeFree()
      requires Valid() && P.Enabled(State(), P.Acquire)
      modifies this, slots
      ensures Valid() && producer.Holding?
      ensures serial == P.Serial(map[], old(serial.out))
    {
      slots.NextWritable();
      producer := P.Holding;
      serial := P.Serial(map[], serial.out);
      P.StepKeeps(old(State()), old(serial), P.Acquire, State(), serial);
    }

    /** The producer's steps that move only its program counter. */
    method Step(s: P.Step)
      requires Valid() && (s.Request? || s.ProducerSleeps?) && P.Enabled(State(), s)
      modifies this`producer
      ensures Valid() && State() == P.Apply(old(State()), s)
    {
      producer := if s.Request? then P.Requesting else P.AsleepFree;
      P.StepKeeps(old(State()), serial, s, State(), serial);
    }

    method StoreOne(i: nat, x: byte)
      requires Valid() && producer.Holding? && i < slots.capacity
      modifies this, slots
      ensures Valid() && producer == old(producer)
      ensures serial == P.Serial(old(serial.scratch)[i := x], old(serial.out))
    {
      slots.Store(i, x);
      serial := P.Serial(serial.scratch[i := x], serial.out);
      P.StepKeeps(old(State()), old(serial), P.Store(i, x), State(), serial);
    }

    /** Bytes written into the held slot, one at a time, the writer thread
        running in between. */
    method Fill(data: Bytes)
      requires Valid() && producer.Holding? && |data| <= slots.capacity
      modifies this, slots
      ensures Valid() && producer.Holding?
      ensures serial.out == old(serial.out)
      ensures forall i | 0 <= i < |data| :: i in serial.scratch && serial.scratch[i] == data[i]
    {
      for i := 0 to |data|
        invariant Valid() && producer.Holding?
        invariant serial.out == old(serial.out)
        invariant forall j | 0 <= j < i :: j in serial.scratch && serial.scratch[j] == data[j]
      {
        WriterRuns();
        StoreOne(i, data[i]);
      }
      WriterRuns();
    }

    method Publish(ghost data: Bytes, n: nat)
      requires Valid() && producer.Holding?
      requires n == |data| <= slots.capacity
      requires forall i | 0 <= i < n :: i in serial.scratch && serial.scratch[i] == data[i]
      modifies this, slots
      ensures Valid() && producer.Outside?
      ensures serial.out == old(serial.out) + data
    {
      slots.Publish(n);
      producer := P.Outside;
      writer := P.WakeConsumer(writer);
      assert P.Slice(serial.scratch, n) == data;
      serial := serial.(out := serial.out + data);
      P.StepKeeps(old(State()), old(serial), P.Publish(n), State(), serial);
    }

    /** Fill the held slot and publish it. */
    method Deliver(data: Bytes, n: nat)
      requires Valid() && producer.Holding?
      requires n == |data| <= slots.capacity
      modifies this, slots
      ensures Valid() && producer.Outside?
      ensures serial.out == old(serial.out) + data
    {
      Fill(data);
      Publish(data, n);
    }

    /** `finish` and `join`: every schedule ends with the file complete. */
    method FinishAndJoin()
      requires Valid() && (producer.Outside? || producer.Holding?)
      modifies this, slots
      ensures Valid() && producer.Joined?
      ensures file == old(serial.out)
    {
      WriterRuns();
      label before:
      slots.Finish();
      producer := P.Finished(producer.Holding?);
      writer := P.WakeConsumer(writer);
      P.StepKeeps(old@before(State()), serial, P.Finish, State(), serial);
      while !writer.Exited?
        invariant Valid() && serial == old(serial)
        invariant producer.Finished?
        decreases P.Work(State())
      {
        P.NotStuck(State(), serial);
        WriterStep();
      }
      label exited:
      producer := P.Joined(producer.holding);
      P.StepKeeps(old@exited(State()), serial, P.Join, State(), serial);
    }
  }
}
