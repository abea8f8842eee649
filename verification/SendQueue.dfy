/** The chunk queue of a rendezvous point: any number of threads run `ParallelMulticastChunk`
    (lock, push, unlock, post) while one runs `ChunkSendLoop` (wait, lock, front and pop,
    unlock), in any interleaving. */
module SendQueue {
  import opened Basics

  /** Where a producer stands: it holds the lock at `Locked` and `Pushed`. */
  datatype Producer<T> = Ready | Locked(chunk: T) | Pushed | Unlocked

  /** Where the sender stands: it holds the lock at `Holding` and `Popped`. */
  datatype Sender = Idle | Waited | Holding | Popped

  datatype Owner = ByProducer(p: nat) | BySender

  /** `pushed` and `sent` record all chunks ever pushed and taken off. */
  datatype State<T> = State(producers: map<nat, Producer<T>>, sender: Sender, lock: Option<Owner>, sem: nat,
                            queue: seq<T>, pushed: seq<T>, sent: seq<T>)

  /** Threads come and go; the rest are the atomic steps of the two loops. */
  datatype Step<T> =
    | Starts(p: nat)
    | Locks(p: nat, chunk: T)
    | Pushes(p: nat)
    | Unlocks(p: nat)
    | Posts(p: nat)
    | Ends(p: nat)
    | SenderWaits
    | SenderLocks
    | SenderPops
    | SenderUnlocks

  predicate At<T(==)>(s: State<T>, p: nat, at: Producer<T>) {
    p in s.producers && s.producers[p] == at
  }

  predicate Possible<T(==)>(s: State<T>, step: Step<T>) {
    match step
    case Starts(p) => p !in s.producers
    case Locks(p, chunk) => At(s, p, Ready) && s.lock == None
    case Pushes(p) => p in s.producers && s.producers[p].Locked?
    case Unlocks(p) => At(s, p, Pushed)
    case Posts(p) => At(s, p, Unlocked)
    case Ends(p) => At(s, p, Ready)
    case SenderWaits => s.sender == Idle && s.sem > 0
    case SenderLocks => s.sender == Waited && s.lock == None
    case SenderPops => s.sender == Holding
    case SenderUnlocks => s.sender == Popped
  }

  function Moved<T>(s: State<T>, p: nat, at: Producer<T>): State<T> {
    s.(producers := s.producers[p := at])
  }

  /** The front of an empty queue is undefined: `None`. */
  function Next<T(==)>(s: State<T>, step: Step<T>): Option<State<T>>
    requires Possible(s, step)
  {
    match step
    case Starts(p) => Some(Moved(s, p, Ready))
    case Locks(p, chunk) => Some(Moved(s, p, Locked(chunk)).(lock := Some(ByProducer(p))))
    case Pushes(p) =>
      var chunk := s.producers[p].chunk;
      Some(Moved(s, p, Pushed).(queue := s.queue + [chunk], pushed := s.pushed + [chunk]))
    case Unlocks(p) => Some(Moved(s, p, Unlocked).(lock := None))
    case Posts(p) => Some(Moved(s, p, Ready).(sem := s.sem + 1))
    case Ends(p) => Some(s.(producers := s.producers - {p}))
    case SenderWaits => Some(s.(sender := Waited, sem := s.sem - 1))
    case SenderLocks => Some(s.(sender := Holding, lock := Some(BySender)))
    case SenderPops =>
      if s.queue == [] then None
      else Some(s.(sender := Popped, queue := s.queue[1..], sent := s.sent + [s.queue[0]]))
    case SenderUnlocks => Some(s.(sender := Idle, lock := None))
  }

  function Start<T>(): State<T> {
    State(map[], Idle, None, 0, [], [], [])
  }

  // ---------------------------------------------------------------- the invariant

  /** Producers that have pushed a chunk and not posted for it yet. */
  function Owing<T>(producers: map<nat, Producer<T>>): set<nat> {
    set p | p in producers && Owes(producers[p])
  }

  predicate Locking<T>(at: Producer<T>) {
    at.Locked? || at.Pushed?
  }

  /** Whoever is inside a critical section holds the lock. */
  predicate Exclusive<T(==)>(s: State<T>) {
    && (forall p :: p in s.producers ==> (Locking(s.producers[p]) <==> s.lock == Some(ByProducer(p))))
    && ((s.sender == Holding || s.sender == Popped) <==> s.lock == Some(BySender))
    && (s.lock.Some? && s.lock.value.ByProducer? ==> s.lock.value.p in s.producers)
  }

  /** Every chunk in the queue is counted by the semaphore, owed by a producer, or promised to
      the sender. */
  predicate Counted<T>(s: State<T>) {
    |s.queue| == s.sem + |Owing(s.producers)| + (if s.sender == Waited || s.sender == Holding then 1 else 0)
  }

  /** Nothing is lost, doubled or reordered. */
  predicate InOrder<T(==)>(s: State<T>) {
    s.pushed == s.sent + s.queue
  }

  predicate Invariant<T(==)>(s: State<T>) {
    Exclusive(s) && Counted(s) && InOrder(s)
  }

  lemma StartInvariant<T>()
    ensures Invariant(Start<T>())
  {
    assert Owing(Start<T>().producers) == {};
  }

  predicate Owes<T>(at: Producer<T>) {
    at.Pushed? || at.Unlocked?
  }

  /** How a producer's step changes what is owed. */
  lemma OwingMoved<T>(producers: map<nat, Producer<T>>, p: nat, at: Producer<T>)
    ensures |Owing(producers[p := at])|
            == |Owing(producers)| + (if Owes(at) then 1 else 0)
               - (if p in producers && Owes(producers[p]) then 1 else 0)
  {
    var others := Owing(producers) - {p};
    assert Owing(producers) == if p in producers && Owes(producers[p]) then others + {p} else others;
    assert Owing(producers[p := at]) == if Owes(at) then others + {p} else others;
  }

  lemma ExclusiveKept<T>(s: State<T>, step: Step<T>)
    requires Exclusive(s) && Possible(s, step) && Next(s, step).Some?
    ensures Exclusive(Next(s, step).value)
  {
  }

  lemma CountedKept<T>(s: State<T>, step: Step<T>)
    requires Counted(s) && Possible(s, step)
    ensures Next(s, step).Some? && Counted(Next(s, step).value)
  {
    match step {
      case Starts(p) => OwingMoved(s.producers, p, Ready);
      case Locks(p, chunk) => OwingMoved(s.producers, p, Locked(chunk));
      case Pushes(p) => OwingMoved(s.producers, p, Pushed);
      case Unlocks(p) => OwingMoved(s.producers, p, Unlocked);
      case Posts(p) => OwingMoved(s.producers, p, Ready);
      case SenderPops =>
        assert |s.queue| >= 1;
        SameOwing(s, step);
      case _ => SameOwing(s, step);
    }
  }

  lemma SameOwing<T>(s: State<T>, step: Step<T>)
    requires Possible(s, step) && Next(s, step).Some?
    requires step.Ends? || step.SenderWaits? || step.SenderLocks? || step.SenderPops? || step.SenderUnlocks?
    ensures Owing(Next(s, step).value.producers) == Owing(s.producers)
  {
  }

  lemma InOrderKept<T>(s: State<T>, step: Step<T>)
    requires InOrder(s) && Possible(s, step) && Next(s, step).Some?
    ensures InOrder(Next(s, step).value)
  {
    match step {
      case Pushes(p) =>
        var chunk := s.producers[p].chunk;
        assert s.sent + s.queue + [chunk] == s.sent + (s.queue + [chunk]);
      case SenderPops =>
        assert s.sent + s.queue == s.sent + [s.queue[0]] + s.queue[1..];
      case _ =>
    }
  }

  /** Every step keeps the invariant and is defined. */
  lemma InvariantKept<T>(s: State<T>, step: Step<T>)
    requires Invariant(s) && Possible(s, step)
    ensures Next(s, step).Some? && Invariant(Next(s, step).value)
  {
    CountedKept(s, step);
    ExclusiveKept(s, step);
    InOrderKept(s, step);
  }

  // ---------------------------------------------------------------- whole runs

  /** `run[i + 1]` is what `steps[i]` makes of `run[i]`, from the start on. */
  ghost predicate Trace<T(!new)>(run: seq<State<T>>, steps: seq<Step<T>>) {
    && |run| == |steps| + 1 && run[0] == Start<T>()
    && forall i :: 0 <= i < |steps| ==> Possible(run[i], steps[i]) && Next(run[i], steps[i]) == Some(run[i + 1])
  }

  lemma {:induction false} TraceInvariant<T(!new)>(run: seq<State<T>>, steps: seq<Step<T>>, i: nat)
    requires Trace(run, steps) && i < |run|
    ensures Invariant(run[i])
  {
    if i == 0 {
      StartInvariant<T>();
    } else {
      TraceInvariant(run, steps, i - 1);
      InvariantKept(run[i - 1], steps[i - 1]);
    }
  }

  /** In every interleaving, no step that can be taken takes the front of an empty queue, and the
      sender sends the chunks in the order they were pushed, each once. */
  lemma NeverEmptyAndInOrder<T(!new)>(run: seq<State<T>>, steps: seq<Step<T>>, i: nat, step: Step<T>)
    requires Trace(run, steps) && i < |run|
    ensures Possible(run[i], step) ==> Next(run[i], step).Some?
    ensures run[i].sent <= run[i].pushed && run[i].pushed == run[i].sent + run[i].queue
    ensures run[i].sender == Holding ==> run[i].queue != []
  {
    TraceInvariant(run, steps, i);
    if Possible(run[i], step) {
      InvariantKept(run[i], step);
    }
  }

  /** No wake-up is lost: when no thread is in the middle of anything, the sender can go on
      exactly as long as there are chunks, and without chunks it blocks. */
  lemma NothingForgotten<T(!new)>(run: seq<State<T>>, steps: seq<Step<T>>, i: nat)
    requires Trace(run, steps) && i < |run|
    ensures var s := run[i];
            s.sender == Idle && (forall p :: p in s.producers ==> s.producers[p] == Ready) ==>
              s.sem == |s.queue| && s.lock == None && (Possible(s, SenderWaits) <==> s.sent != s.pushed)
  {
    TraceInvariant(run, steps, i);
    var s := run[i];
    if s.sender == Idle && forall p :: p in s.producers ==> s.producers[p] == Ready {
      assert Owing(s.producers) == {};
      SomeoneInside(s);
    }
  }

  lemma SomeoneInside<T>(s: State<T>)
    requires Exclusive(s)
    ensures s.lock.Some? ==> s.sender != Idle || exists p :: p in s.producers && s.producers[p] != Ready
  {
    if s.lock.Some? && s.lock.value.ByProducer? {
      assert s.producers[s.lock.value.p] != Ready;
    }
  }
}
