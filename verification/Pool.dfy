/** The server's connection pool: the accept loop, the descriptor queue, the
    worker threads, the clients map and the connection counter, in every
    interleaving, with descriptors reused by the kernel once closed. */
module Pool {
  import opened Octets

  /** Where the accept loop is; the push to the queue comes before the two
      counter increments. */
  datatype Main = Accepting | Accepted(fd: int) | Registered(fd: int) | CountTotal | CountLive

  /** Where a worker is.  `id` is the connection the descriptor stood for when the
      worker took it: history, the code has only the descriptor. */
  datatype Worker =
    | Idle
    | KeyExchange(fd: int, id: nat)
    | Credentials(fd: int, id: nat)
    | Rejected(fd: int, id: nat)
    | Serving(fd: int, id: nat)
    | Erased(fd: int, id: nat)
    | Closed

  /** `open` gives each open accepted descriptor its connection; `clients` is the
      shared map; the `lost` lists are descriptors that an early return of the
      handler left open. */
  datatype Pool = Pool(
    main: Main, queue: seq<int>, workers: seq<Worker>,
    open: map<int, nat>, next: nat, clients: map<int, nat>, live: u64,
    lostKeys: seq<int>, lostCreds: seq<int>)

  function Start(size: nat): Pool
  {
    Pool(Accepting, [], seq(size, i => Idle), map[], 0, map[], 0, [], [])
  }

  datatype Move = Dequeue | KeysFail | KeysOk | CredsFail | DecRejected | CredsOk | Erase | Close | DecClosed

  /** A step of the accept loop, or a move of worker `w`. */
  datatype Step =
    | Accept(fd: int) | TimeoutFails | Register | Push | IncTotal | IncLive
    | Work(w: nat, move: Move)

  /** The kernel hands out any descriptor that is not open. */
  predicate Enabled(p: Pool, s: Step)
  {
    match s
    case Accept(fd) => p.main.Accepting? && fd !in p.open
    case TimeoutFails => p.main.Accepted?
    case Register => p.main.Accepted? && p.main.fd in p.open
    case Push => p.main.Registered?
    case IncTotal => p.main.CountTotal?
    case IncLive => p.main.CountLive?
    case Work(w, move) => w < |p.workers| && MoveEnabled(p, p.workers[w], move)
  }

  predicate MoveEnabled(p: Pool, worker: Worker, move: Move)
  {
    match move
    case Dequeue => worker.Idle? && p.queue != [] && p.queue[0] in p.open
    case KeysFail => worker.KeyExchange?
    case KeysOk => worker.KeyExchange?
    case CredsFail => worker.Credentials?
    case DecRejected => worker.Rejected?
    case CredsOk => worker.Credentials?
    case Erase => worker.Serving?
    case Close => worker.Erased?
    case DecClosed => worker.Closed?
  }

  function Apply(p: Pool, s: Step): Pool
    requires Enabled(p, s)
  {
    match s
    case Accept(fd) => p.(main := Accepted(fd), open := p.open[fd := p.next], next := p.next + 1)
    case TimeoutFails => p.(main := Accepting, open := p.open - {p.main.fd})
    case Register => p.(main := Registered(p.main.fd), clients := p.clients[p.main.fd := p.open[p.main.fd]])
    case Push => p.(main := CountTotal, queue := p.queue + [p.main.fd])
    case IncTotal => p.(main := CountLive)
    case IncLive => p.(main := Accepting, live := Inc(p.live))
    case Work(w, move) => Effect(p, p.workers[w], move).(workers := p.workers[w := Moved(p, p.workers[w], move)])
  }

  /** Where the worker is afterwards. */
  function Moved(p: Pool, worker: Worker, move: Move): Worker
    requires MoveEnabled(p, worker, move)
  {
    match move
    case Dequeue => KeyExchange(p.queue[0], p.open[p.queue[0]])
    case KeysFail => Idle
    case KeysOk => Credentials(worker.fd, worker.id)
    case CredsFail => Rejected(worker.fd, worker.id)
    case DecRejected => Idle
    case CredsOk => Serving(worker.fd, worker.id)
    case Erase => Erased(worker.fd, worker.id)
    case Close => Closed
    case DecClosed => Idle
  }

  /** What the move does to everything else. */
  function Effect(p: Pool, worker: Worker, move: Move): Pool
    requires MoveEnabled(p, worker, move)
  {
    match move
    case Dequeue => p.(queue := p.queue[1..])
    case KeysFail => p.(lostKeys := p.lostKeys + [worker.fd])
    case DecRejected => p.(lostCreds := p.lostCreds + [worker.fd], live := Dec(p.live))
    case Erase => p.(clients := p.clients - {worker.fd})
    case Close => p.(open := p.open - {worker.fd})
    case DecClosed => p.(live := Dec(p.live))
    case _ => p
  }

  // Counting.

  predicate Holds(w: Worker, fd: int)
  {
    !w.Idle? && !w.Closed? && w.fd == fd
  }

  predicate ErasedFor(w: Worker, fd: int)
  {
    w.Erased? && w.fd == fd
  }

  /** Workers that hold `fd`, that hold it and have erased its entry, and workers
      inside a handler. */
  function Holders(ws: seq<Worker>, fd: int): nat
  {
    if ws == [] then 0 else (if Holds(ws[0], fd) then 1 else 0) + Holders(ws[1..], fd)
  }

  function Erasers(ws: seq<Worker>, fd: int): nat
  {
    if ws == [] then 0 else (if ErasedFor(ws[0], fd) then 1 else 0) + Erasers(ws[1..], fd)
  }

  function Busy(ws: seq<Worker>): nat
  {
    if ws == [] then 0 else (if ws[0].Idle? then 0 else 1) + Busy(ws[1..])
  }

  lemma {:induction false} UpdateCounts(ws: seq<Worker>, i: nat, w: Worker, fd: int)
    requires i < |ws|
    ensures Holders(ws[i := w], fd) + (if Holds(ws[i], fd) then 1 else 0) == Holders(ws, fd) + if Holds(w, fd) then 1 else 0
    ensures Erasers(ws[i := w], fd) + (if ErasedFor(ws[i], fd) then 1 else 0) == Erasers(ws, fd) + if ErasedFor(w, fd) then 1 else 0
    ensures Busy(ws[i := w]) + (if ws[i].Idle? then 0 else 1) == Busy(ws) + if w.Idle? then 0 else 1
  {
    if i == 0 {
      assert ws[0 := w][1..] == ws[1..];
    } else {
      assert ws[i := w][1..] == ws[1..][i - 1 := w];
      UpdateCounts(ws[1..], i - 1, w, fd);
    }
  }

  lemma {:induction false} ErasersHold(ws: seq<Worker>, fd: int)
    ensures Erasers(ws, fd) <= Holders(ws, fd)
  {
    if ws != [] {
      ErasersHold(ws[1..], fd);
    }
  }

  lemma {:induction false} HolderCounted(ws: seq<Worker>, i: nat, fd: int)
    requires i < |ws| && Holds(ws[i], fd)
    ensures Holders(ws, fd) >= 1
    ensures Holders(ws, fd) == 1 && !ErasedFor(ws[i], fd) ==> Erasers(ws, fd) == 0
  {
    ErasersHold(ws[1..], fd);
    if i > 0 {
      HolderCounted(ws[1..], i - 1, fd);
    }
  }

  predicate MainHolds(m: Main, fd: int)
  {
    (m.Accepted? || m.Registered?) && m.fd == fd
  }

  /** In how many places a descriptor is: with the accept loop, queued, with a
      worker that has not closed it, or abandoned by an early return. */
  function Owners(p: Pool, fd: int): nat
  {
    (if MainHolds(p.main, fd) then 1 else 0) + Count(p.queue, fd) + Holders(p.workers, fd)
    + Count(p.lostKeys, fd) + Count(p.lostCreds, fd)
  }

  // The invariant.

  ghost predicate Owned(p: Pool)
  {
    forall fd :: Owners(p, fd) == if fd in p.open then 1 else 0
  }

  /** Connections are numbered in the order they were accepted, and a worker's
      descriptor still stands for the connection it took. */
  ghost predicate Current(p: Pool)
  {
    && (forall fd | fd in p.open :: p.open[fd] < p.next)
    && (forall i, fd | 0 <= i < |p.workers| && Holds(p.workers[i], fd) :: fd in p.open && p.open[fd] == p.workers[i].id)
  }

  /** The map's keys are exactly the registered descriptors not yet erased, each
      with the connection it was registered for. */
  predicate MappedAt(p: Pool, fd: int)
  {
    && (fd in p.clients <==> fd in p.open && p.main != Accepted(fd) && Erasers(p.workers, fd) == 0)
    && (fd in p.clients ==> p.clients[fd] == p.open[fd])
  }

  ghost predicate Mapped(p: Pool)
  {
    forall fd :: MappedAt(p, fd)
  }

  /** No two open descriptors stand for the same connection. */
  ghost predicate Numbered(p: Pool)
  {
    forall a, b | a in p.open && b in p.open && a != b :: p.open[a] != p.open[b]
  }

  /** The queue is in the order of acceptance, and the descriptor that the accept
      loop has in hand is newer than all of it. */
  ghost predicate Queued(p: Pool)
  {
    && (forall i | 0 <= i < |p.queue| :: p.queue[i] in p.open)
    && (forall i, j | 0 <= i < j < |p.queue| :: p.open[p.queue[i]] < p.open[p.queue[j]])
    && (forall fd | MainHolds(p.main, fd) :: fd in p.open && forall i | 0 <= i < |p.queue| :: p.open[p.queue[i]] < p.open[fd])
  }

  function Pending(m: Main): nat
  {
    if m.CountTotal? || m.CountLive? then 1 else 0
  }

  /** Connections queued, being handled, or lost to a failed key exchange. */
  function Connections(p: Pool): nat
  {
    |p.queue| + Busy(p.workers) + |p.lostKeys|
  }

  /** The counter with the increment the accept loop still owes, modulo 2^64. */
  predicate Conserved(p: Pool)
  {
    (p.live + Pending(p.main)) % TWO64 == Connections(p) % TWO64
  }

  ghost predicate Inv(p: Pool)
  {
    Owned(p) && Current(p) && Mapped(p) && Conserved(p) && Numbered(p) && Queued(p)
  }

  // Each part over one step.

  lemma UnownedIsFree(p: Pool, i: nat, fd: int)
    requires Owned(p) && i < |p.workers| && Holds(p.workers[i], fd)
    ensures fd in p.open && !MainHolds(p.main, fd)
    ensures forall j | 0 <= j < |p.workers| && j != i :: !Holds(p.workers[j], fd)
  {
    assert Owners(p, fd) <= 1;
    HolderCounted(p.workers, i, fd);
    forall j | 0 <= j < |p.workers| && j != i ensures !Holds(p.workers[j], fd) {
      if Holds(p.workers[j], fd) {
        var ws := p.workers[i := Idle];
        UpdateCounts(p.workers, i, Idle, fd);
        HolderCounted(ws, j, fd);
      }
    }
  }

  lemma OwnedKept(p: Pool, s: Step, p1: Pool)
    requires Owned(p) && Enabled(p, s) && p1 == Apply(p, s)
    ensures Owned(p1)
  {
    forall fd ensures Owners(p1, fd) == if fd in p1.open then 1 else 0 {
      assert Owners(p, fd) == if fd in p.open then 1 else 0;
      match s
      case Push => CountSnoc(p.queue, p.main.fd, fd);
      case Work(w, move) => WorkOwners(p, w, move, p1, fd);
      case _ =>
    }
  }

  lemma WorkOwners(p: Pool, w: nat, move: Move, p1: Pool, fd: int)
    requires Enabled(p, Work(w, move)) && p1 == Apply(p, Work(w, move))
    requires Owners(p, fd) == if fd in p.open then 1 else 0
    ensures Owners(p1, fd) == if fd in p1.open then 1 else 0
  {
    UpdateCounts(p.workers, w, p1.workers[w], fd);
    match move
    case KeysFail => CountSnoc(p.lostKeys, p.workers[w].fd, fd);
    case DecRejected => CountSnoc(p.lostCreds, p.workers[w].fd, fd);
    case _ =>
  }

  lemma CurrentKept(p: Pool, s: Step, p1: Pool)
    requires Owned(p) && Current(p) && Enabled(p, s) && p1 == Apply(p, s)
    ensures Current(p1)
  {
    match s
    case TimeoutFails =>
      assert Owners(p, p.main.fd) <= 1;
      forall i | 0 <= i < |p.workers| ensures !Holds(p.workers[i], p.main.fd) {
        if Holds(p.workers[i], p.main.fd) { HolderCounted(p.workers, i, p.main.fd); }
      }
    case Work(w, move) => WorkCurrent(p, w, move, p1);
    case _ =>
  }

  lemma WorkCurrent(p: Pool, w: nat, move: Move, p1: Pool)
    requires Owned(p) && Current(p) && Enabled(p, Work(w, move)) && p1 == Apply(p, Work(w, move))
    ensures Current(p1)
  {
    if move.Close? {
      UnownedIsFree(p, w, p.workers[w].fd);
    }
    forall i, fd | 0 <= i < |p1.workers| && Holds(p1.workers[i], fd)
      ensures fd in p1.open && p1.open[fd] == p1.workers[i].id
    {
      if i == w {
        assert move.Dequeue? || Holds(p.workers[w], fd);
      } else {
        assert Holds(p.workers[i], fd);
      }
    }
  }

  lemma MappedKept(p: Pool, s: Step, p1: Pool)
    requires Owned(p) && Mapped(p) && Enabled(p, s) && p1 == Apply(p, s)
    ensures Mapped(p1)
  {
    forall fd ensures MappedAt(p1, fd) {
      assert MappedAt(p, fd);
      assert Owners(p, fd) == if fd in p.open then 1 else 0;
      match s
      case Work(w, move) => WorkMapped(p, w, move, p1, fd);
      case _ => ErasersHold(p.workers, fd);
    }
  }

  lemma WorkMapped(p: Pool, w: nat, move: Move, p1: Pool, fd: int)
    requires Enabled(p, Work(w, move)) && p1 == Apply(p, Work(w, move))
    requires Owners(p, fd) == (if fd in p.open then 1 else 0) && MappedAt(p, fd)
    ensures MappedAt(p1, fd)
  {
    UpdateCounts(p.workers, w, p1.workers[w], fd);
    if (move.Erase? || move.Close?) && p.workers[w].fd == fd {
      HolderCounted(p.workers, w, fd);
    }
  }

  lemma ModShift(a: int, b: int, k: int)
    requires a % TWO64 == b % TWO64
    ensures (a + k) % TWO64 == (b + k) % TWO64
  {
    var d := a / TWO64 - b / TWO64;
    assert a + k == b + k + d * TWO64;
  }

  lemma ModInner(a: int, k: int)
    ensures (a % TWO64 + k) % TWO64 == (a + k) % TWO64
  {
    ModShift(a % TWO64, a, k);
  }

  lemma ConnectionsStep(p: Pool, s: Step, p1: Pool)
    requires Enabled(p, s) && p1 == Apply(p, s)
    ensures Connections(p1) - Connections(p) ==
            match s
            case Push => 1
            case Work(_, move) => if move.DecRejected? || move.DecClosed? then -1 else 0
            case _ => 0
  {
    if s.Work? {
      UpdateCounts(p.workers, s.w, p1.workers[s.w], 0);
    }
  }

  lemma ConservedKept(p: Pool, s: Step, p1: Pool)
    requires Conserved(p) && Enabled(p, s) && p1 == Apply(p, s)
    ensures Conserved(p1)
  {
    hide Connections;
    ConnectionsStep(p, s, p1);
    ModShift(p.live + Pending(p.main), Connections(p), Connections(p1) - Connections(p));
    ModInner(p.live + 1, Pending(p1.main));
    ModInner(p.live - 1, Pending(p1.main));
  }

  lemma NumberedKept(p: Pool, s: Step, p1: Pool)
    requires Current(p) && Numbered(p) && Enabled(p, s) && p1 == Apply(p, s)
    ensures Numbered(p1)
  {
  }

  lemma {:induction false} QueuedCounts(q: seq<int>, i: nat)
    requires i < |q|
    ensures Count(q, q[i]) >= 1
  {
    if i > 0 {
      QueuedCounts(q[1..], i - 1);
    }
  }

  /** A descriptor in hand is not in the queue. */
  lemma NotQueued(p: Pool, fd: int)
    requires Owned(p) && (MainHolds(p.main, fd) || Holders(p.workers, fd) >= 1)
    ensures forall i | 0 <= i < |p.queue| :: p.queue[i] != fd
  {
    assert Owners(p, fd) <= 1;
    forall i | 0 <= i < |p.queue| ensures p.queue[i] != fd {
      QueuedCounts(p.queue, i);
    }
  }

  lemma NumberBelow(p: Pool, fd: int)
    requires Current(p) && fd in p.open
    ensures p.open[fd] < p.next
  {
  }

  lemma QueuedKept(p: Pool, s: Step, p1: Pool)
    requires Owned(p) && Current(p) && Queued(p) && Enabled(p, s) && p1 == Apply(p, s)
    ensures Queued(p1)
  {
    match s
    case Accept(fd) =>
      forall i | 0 <= i < |p.queue|
        ensures p1.queue[i] in p1.open && p1.open[p1.queue[i]] == p.open[p.queue[i]] < p1.open[fd]
      {
        NumberBelow(p, p.queue[i]);
      }
    case TimeoutFails => NotQueued(p, p.main.fd);
    case Register => assert MainHolds(p.main, p.main.fd);
    case Push => assert MainHolds(p.main, p.main.fd);
    case Work(w, move) => WorkQueued(p, w, move, p1);
    case _ =>
  }

  lemma WorkQueued(p: Pool, w: nat, move: Move, p1: Pool)
    requires Owned(p) && Queued(p) && Enabled(p, Work(w, move)) && p1 == Apply(p, Work(w, move))
    ensures Queued(p1)
  {
    hide Owned;
    if move.Close? {
      HolderCounted(p.workers, w, p.workers[w].fd);
      NotQueued(p, p.workers[w].fd);
      UnownedIsFree(p, w, p.workers[w].fd);
    }
  }

  lemma StepKeeps(p: Pool, s: Step, p1: Pool)
    requires Inv(p) && Enabled(p, s) && p1 == Apply(p, s)
    ensures Inv(p1)
  {
    hide Owned, Current, Mapped, Conserved, Numbered, Queued;
    OwnedKept(p, s, p1);
    CurrentKept(p, s, p1);
    MappedKept(p, s, p1);
    ConservedKept(p, s, p1);
    NumberedKept(p, s, p1);
    QueuedKept(p, s, p1);
  }

  predicate Run(p: Pool, steps: seq<Step>, p1: Pool)
    decreases |steps|
  {
    if steps == [] then p1 == p else Enabled(p, steps[0]) && Run(Apply(p, steps[0]), steps[1..], p1)
  }

  lemma {:induction false} IdleCounts(size: nat, fd: int)
    ensures Holders(seq(size, i => Idle), fd) == 0 && Busy(seq(size, i => Idle)) == 0
  {
    if size > 0 {
      assert seq(size, i => Idle)[1..] == seq(size - 1, i => Idle);
      IdleCounts(size - 1, fd);
    }
  }

  lemma StartInv(size: nat)
    ensures Inv(Start(size))
  {
    forall fd ensures Owners(Start(size), fd) == 0 { IdleCounts(size, fd); }
    IdleCounts(size, 0);
  }

  lemma {:induction false} RunKeeps(p: Pool, steps: seq<Step>, p1: Pool)
    requires Inv(p) && Run(p, steps, p1)
    ensures Inv(p1)
    decreases |steps|
  {
    hide Inv, Enabled;
    if steps != [] {
      StepKeeps(p, steps[0], Apply(p, steps[0]));
      RunKeeps(Apply(p, steps[0]), steps[1..], p1);
    }
  }

  lemma ReachableInv(size: nat, steps: seq<Step>, p: Pool)
    requires Run(Start(size), steps, p)
    ensures Inv(p)
  {
    StartInv(size);
    RunKeeps(Start(size), steps, p);
  }

  // Main results.

  /** Descriptor ownership with reuse: in every run each open accepted descriptor
      is in exactly one place and no other descriptor is in any. */
  lemma DescriptorOwnership(size: nat, steps: seq<Step>, p: Pool, fd: int)
    requires Run(Start(size), steps, p)
    ensures Owners(p, fd) == if fd in p.open then 1 else 0
  {
    ReachableInv(size, steps, p);
  }

  /** The steps' demand that the descriptor in hand is open never holds a thread
      up: it is met whenever the thread gets there. */
  lemma NeverStale(size: nat, steps: seq<Step>, p: Pool)
    requires Run(Start(size), steps, p)
    ensures p.main.Accepted? ==> Enabled(p, Register)
    ensures p.queue != [] ==> forall w | 0 <= w < |p.workers| && p.workers[w].Idle? :: Enabled(p, Work(w, Dequeue))
  {
    ReachableInv(size, steps, p);
    if p.main.Accepted? {
      assert Owners(p, p.main.fd) >= 1;
    }
    if p.queue != [] {
      assert Owners(p, p.queue[0]) >= 1;
    }
  }

  /** A connection's number identifies it: no two open descriptors share one. */
  lemma ConnectionsDistinct(size: nat, steps: seq<Step>, p: Pool, a: int, b: int)
    requires Run(Start(size), steps, p) && a in p.open && b in p.open && a != b
    ensures p.open[a] != p.open[b]
  {
    ReachableInv(size, steps, p);
  }

  /** The queue is in the order of acceptance, so the worker that dequeues takes the
      connection accepted first of those queued. */
  lemma OldestFirst(size: nat, steps: seq<Step>, p: Pool, w: nat)
    requires Run(Start(size), steps, p)
    ensures forall i | 0 <= i < |p.queue| :: p.queue[i] in p.open
    ensures forall i, j | 0 <= i < j < |p.queue| :: p.open[p.queue[i]] < p.open[p.queue[j]]
    ensures Enabled(p, Work(w, Dequeue)) ==>
              var p1 := Apply(p, Work(w, Dequeue));
              && p1.workers[w].fd in p.queue && p1.workers[w].id == p.open[p1.workers[w].fd]
              && forall fd | fd in p.queue && fd != p1.workers[w].fd :: p1.workers[w].id < p.open[fd] && fd in p1.queue
  {
    ReachableInv(size, steps, p);
  }

  /** The connections that a run accepts, and those that workers take, in order. */
  function Arrivals(p: Pool, steps: seq<Step>): seq<nat>
    decreases |steps|
  {
    if steps == [] || !Enabled(p, steps[0]) then [] else
    var p1 := Apply(p, steps[0]);
    (if steps[0].Accept? then [p1.open[steps[0].fd]] else []) + Arrivals(p1, steps[1..])
  }

  function Served(p: Pool, steps: seq<Step>): seq<nat>
    decreases |steps|
  {
    if steps == [] || !Enabled(p, steps[0]) then [] else
    var p1 := Apply(p, steps[0]);
    (if steps[0].Work? && steps[0].move.Dequeue? then [p1.workers[steps[0].w].id] else []) + Served(p1, steps[1..])
  }

  lemma {:induction false} ArrivalsFrom(p: Pool, steps: seq<Step>, p1: Pool)
    requires Run(p, steps, p1)
    ensures p.next + |Arrivals(p, steps)| == p1.next
    ensures forall i | 0 <= i < |Arrivals(p, steps)| :: Arrivals(p, steps)[i] == p.next + i
    decreases |steps|
  {
    hide Run;
    RunSplit(p, steps, p1);
    if steps != [] {
      ArrivalsFrom(Apply(p, steps[0]), steps[1..], p1);
    }
  }

  lemma RunSplit(p: Pool, steps: seq<Step>, p1: Pool)
    requires Run(p, steps, p1)
    ensures steps == [] ==> p1 == p
    ensures steps != [] ==> Enabled(p, steps[0]) && Run(Apply(p, steps[0]), steps[1..], p1)
  {
  }

  /** Every connection taken so far is older than `n`, and everything not yet taken
      is at least as new. */
  ghost predicate NotBefore(p: Pool, n: nat)
  {
    && n <= p.next
    && (forall i | 0 <= i < |p.queue| :: p.queue[i] in p.open && n <= p.open[p.queue[i]])
    && (forall fd | MainHolds(p.main, fd) :: fd in p.open && n <= p.open[fd])
  }

  lemma NotBeforeKept(p: Pool, s: Step, p1: Pool, n: nat)
    requires Inv(p) && NotBefore(p, n) && Enabled(p, s) && p1 == Apply(p, s)
    ensures NotBefore(p1, n)
    ensures s.Work? && s.move.Dequeue? ==> n <= p1.workers[s.w].id && NotBefore(p1, p1.workers[s.w].id + 1)
  {
    hide Owned, Mapped, Conserved, Numbered;
    QueuedKept(p, s, p1);
  }

  lemma {:induction false} ServedFrom(p: Pool, steps: seq<Step>, p1: Pool, n: nat)
    requires Inv(p) && NotBefore(p, n) && Run(p, steps, p1)
    ensures forall i | 0 <= i < |Served(p, steps)| :: n <= Served(p, steps)[i]
    ensures forall i, j | 0 <= i < j < |Served(p, steps)| :: Served(p, steps)[i] < Served(p, steps)[j]
    decreases |steps|
  {
    hide Inv, Run, NotBefore;
    RunSplit(p, steps, p1);
    if steps != [] {
      var s := steps[0];
      var q := Apply(p, s);
      StepKeeps(p, s, q);
      NotBeforeKept(p, s, q, n);
      var taken := s.Work? && s.move.Dequeue?;
      ServedFrom(q, steps[1..], p1, if taken then q.workers[s.w].id + 1 else n);
    }
  }

  /** First come, first served.  In every run connections are numbered 0, 1, 2, ...
      as they are accepted, whatever descriptors they reuse, and workers take them
      in increasing order: none is overtaken by a later one. */
  lemma FirstComeFirstServed(size: nat, steps: seq<Step>, p: Pool)
    requires Run(Start(size), steps, p)
    ensures Arrivals(Start(size), steps) == seq(p.next, i => i)
    ensures forall i, j | 0 <= i < j < |Served(Start(size), steps)| ::
              Served(Start(size), steps)[i] < Served(Start(size), steps)[j]
  {
    hide Run, Arrivals, Served;
    StartInv(size);
    ArrivalsFrom(Start(size), steps, p);
    ServedFrom(Start(size), steps, p, 0);
  }

  /** The clients map in every run. */
  lemma ClientsExact(size: nat, steps: seq<Step>, p: Pool, fd: int)
    requires Run(Start(size), steps, p)
    ensures fd in p.clients <==> fd in p.open && p.main != Accepted(fd) && Erasers(p.workers, fd) == 0
    ensures fd in p.clients ==> p.clients[fd] == p.open[fd]
  {
    ReachableInv(size, steps, p);
    assert MappedAt(p, fd);
  }

  /** Because erase precedes close, the entry a handler erases is its own
      connection's, never that of a newer connection on the same descriptor, and
      every other entry stays. */
  lemma EraseOwnEntry(size: nat, steps: seq<Step>, p: Pool, w: nat)
    requires Run(Start(size), steps, p) && Enabled(p, Work(w, Erase))
    ensures p.workers[w].fd in p.clients && p.clients[p.workers[w].fd] == p.workers[w].id
    ensures forall fd | fd in p.clients && fd != p.workers[w].fd ::
              && p.clients[fd] != p.workers[w].id
              && fd in Apply(p, Work(w, Erase)).clients && Apply(p, Work(w, Erase)).clients[fd] == p.clients[fd]
  {
    ReachableInv(size, steps, p);
    var fd := p.workers[w].fd;
    UnownedIsFree(p, w, fd);
    assert Holds(p.workers[w], fd);
    HolderCounted(p.workers, w, fd);
    assert Owners(p, fd) <= 1 && MappedAt(p, fd);
    forall other | other in p.clients && other != fd ensures p.clients[other] != p.workers[w].id {
      assert MappedAt(p, other);
    }
  }

  /** Connection conservation in every interleaving, modulo 2^64. */
  lemma ConnectionConservation(size: nat, steps: seq<Step>, p: Pool)
    requires Run(Start(size), steps, p)
    ensures (p.live + Pending(p.main)) % TWO64 == Connections(p) % TWO64
  {
    ReachableInv(size, steps, p);
  }

  /** The counter is exactly the number of queued and handled connections if and
      only if the increment the accept loop owes is balanced by failed key
      exchanges; with no failure, whenever nothing is owed.  (Fewer than 2^64
      connections in all.) */
  lemma LiveCountExactIff(size: nat, steps: seq<Step>, p: Pool)
    requires Run(Start(size), steps, p)
    requires Connections(p) < TWO64
    ensures p.live == |p.queue| + Busy(p.workers) <==> Pending(p.main) == |p.lostKeys|
  {
    ReachableInv(size, steps, p);
  }

  /** The counter stands at 2^64 - 1, one below zero, if and only if the accept loop
      still owes the increment for a connection and nothing is left to count.
      (Fewer than 2^64 - 1 connections, so that it is no true count.) */
  lemma CounterWrapsIff(size: nat, steps: seq<Step>, p: Pool)
    requires Run(Start(size), steps, p)
    requires Connections(p) < TWO64 - 1
    ensures p.live == TWO64 - 1 <==> Connections(p) == 0 && Pending(p.main) == 1
  {
    ReachableInv(size, steps, p);
  }

  /** That happens with any number of workers: the push precedes the increment, so a
      handler may reject the login first. */
  lemma CounterCanWrap(size: nat)
    requires size >= 1
    ensures exists steps, p :: Run(Start(size), steps, p) && p.live == TWO64 - 1
  {
    var p0 := Start(size);
    var p1 := Apply(p0, Accept(5));
    var p2 := Apply(p1, Register);
    var p3 := Apply(p2, Push);
    var p4 := Apply(p3, Work(0, Dequeue));
    var p5 := Apply(p4, Work(0, KeysOk));
    var p6 := Apply(p5, Work(0, CredsFail));
    var p7 := Apply(p6, Work(0, DecRejected));
    var s6 := RunCons(p6, Work(0, DecRejected), [], p7);
    var s5 := RunCons(p5, Work(0, CredsFail), s6, p7);
    var s4 := RunCons(p4, Work(0, KeysOk), s5, p7);
    var s3 := RunCons(p3, Work(0, Dequeue), s4, p7);
    var s2 := RunCons(p2, Push, s3, p7);
    var s1 := RunCons(p1, Register, s2, p7);
    var s0 := RunCons(p0, Accept(5), s1, p7);
  }

  lemma RunCons(p: Pool, s: Step, steps: seq<Step>, p1: Pool) returns (all: seq<Step>)
    requires Enabled(p, s) && Run(Apply(p, s), steps, p1)
    ensures Run(p, all, p1)
  {
    all := [s] + steps;
    assert all[1..] == steps;
  }
}
