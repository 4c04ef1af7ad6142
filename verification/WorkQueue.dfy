/** The per-CPU work queue: one producer and one consumer share a ring, and every read and write of
    shared memory is a step of its own. Runs are all interleavings of such steps. */
module WorkQueue {
  import opened Words

  const SIZE := 32

  datatype Item = Item(handler: nat, arg: u64)

  /** Where the producer is inside `push_work`, with its local variables. */
  datatype Producer =
    | Resting
    | LoadTail(item: Item)
    | LoadHead(item: Item, tail: nat)
    | StoreHandler(item: Item, tail: nat, next: nat)
    | StoreArg(item: Item, tail: nat, next: nat)
    | StoreTail(item: Item, next: nat)

  /** Where the consumer is inside `process_work_queue`. */
  datatype Consumer =
    | Away
    | TestHead
    | TestTail(seen: nat)
    | TakeHead
    | LoadHandler(head: nat)
    | LoadArg(head: nat, f: Option<nat>)
    | Call(head: nat, f: Option<nat>, arg: u64)
    | StoreHead(head: nat)

  /** Shared memory, both program counters, and what has happened so far: the items accepted by
      `push_work`, the calls made by the consumer, and how often the head has moved. */
  datatype Queue = Queue(
    head: nat, tail: nat, handlers: seq<Option<nat>>, args: seq<u64>,
    producer: Producer, consumer: Consumer,
    accepted: seq<Item>, executed: seq<Item>, consumed: nat)

  datatype Step = Push(item: Item) | Produce | Interrupt | Consume

  predicate Sized(q: Queue) { |q.handlers| == SIZE && |q.args| == SIZE }

  function ProducerStep(q: Queue): Queue
    requires Sized(q)
  {
    match q.producer
    case Resting => q
    case LoadTail(item) => q.(producer := LoadHead(item, q.tail))
    case LoadHead(item, tail) =>
      var next := (tail + 1) % SIZE;
      q.(producer := if next == q.head then Resting else StoreHandler(item, tail, next))
    case StoreHandler(item, tail, next) =>
      if tail >= SIZE then q
      else q.(handlers := q.handlers[tail := Some(item.handler)], producer := StoreArg(item, tail, next))
    case StoreArg(item, tail, next) =>
      if tail >= SIZE then q else q.(args := q.args[tail := item.arg], producer := StoreTail(item, next))
    case StoreTail(item, next) => q.(tail := next, producer := Resting, accepted := q.accepted + [item])
  }

  function ConsumerStep(q: Queue): Queue
    requires Sized(q)
  {
    match q.consumer
    case Away => q
    case TestHead => q.(consumer := TestTail(q.head))
    case TestTail(seen) => q.(consumer := if seen == q.tail then Away else TakeHead)
    case TakeHead => q.(consumer := LoadHandler(q.head))
    case LoadHandler(head) => if head >= SIZE then q else q.(consumer := LoadArg(head, q.handlers[head]))
    case LoadArg(head, f) => if head >= SIZE then q else q.(consumer := Call(head, f, q.args[head]))
    case Call(head, f, arg) =>
      q.(consumer := StoreHead(head), executed := if f.Some? then q.executed + [Item(f.value, arg)] else q.executed)
    case StoreHead(head) => q.(head := (head + 1) % SIZE, consumer := TestHead, consumed := q.consumed + 1)
  }

  /** The producer may start a push when it has none under way; the interrupt starts the consumer
      when it is not running (it is not re-entered). */
  function Do(q: Queue, step: Step): Queue
    requires Sized(q)
  {
    match step
    case Push(item) => if q.producer == Resting then q.(producer := LoadTail(item)) else q
    case Produce => ProducerStep(q)
    case Interrupt => if q.consumer == Away then q.(consumer := TestHead) else q
    case Consume => ConsumerStep(q)
  }

  predicate Initial(q: Queue) {
    && Sized(q) && q.head == 0 && q.tail == 0 && q.producer == Resting && q.consumer == Away
    && q.accepted == [] && q.executed == [] && q.consumed == 0
  }

  // ----- The invariant -----

  /** The slot of the `k`-th accepted item. */
  function Slot(k: nat): (r: nat)
    ensures r < SIZE
  {
    k % SIZE
  }

  predicate Holds(handlers: seq<Option<nat>>, args: seq<u64>, slot: nat, item: Item) {
    slot < |handlers| && slot < |args| && handlers[slot] == Some(item.handler) && args[slot] == item.arg
  }

  /** Slots from the head to the tail hold the accepted items that are not yet consumed. */
  ghost predicate SlotsHold(handlers: seq<Option<nat>>, args: seq<u64>, accepted: seq<Item>, consumed: nat) {
    forall k :: consumed <= k < |accepted| ==> Holds(handlers, args, Slot(k), accepted[k])
  }

  /** A producer that is going to store has room for its item. */
  ghost predicate ProducerOk(q: Queue)
    requires Sized(q)
  {
    var p := |q.accepted|;
    match q.producer
    case Resting => true
    case LoadTail(_) => true
    case LoadHead(_, tail) => tail == Slot(p)
    case StoreHandler(_, tail, next) => tail == Slot(p) && next == Slot(p + 1) && p < q.consumed + SIZE - 1
    case StoreArg(item, tail, next) =>
      && tail == Slot(p) && next == Slot(p + 1) && p < q.consumed + SIZE - 1
      && q.handlers[tail] == Some(item.handler)
    case StoreTail(item, next) =>
      next == Slot(p + 1) && p < q.consumed + SIZE - 1 && Holds(q.handlers, q.args, Slot(p), item)
  }

  /** A consumer that has seen an item works on the oldest one. */
  ghost predicate ConsumerOk(q: Queue) {
    var c := q.consumed;
    && |q.executed| == (if q.consumer.StoreHead? then c + 1 else c)
    && match q.consumer
       case Away => true
       case TestHead => true
       case TestTail(seen) => seen == q.head
       case TakeHead => c < |q.accepted|
       case LoadHandler(head) => c < |q.accepted| && head == q.head
       case LoadArg(head, f) => c < |q.accepted| && head == q.head && f == Some(q.accepted[c].handler)
       case Call(head, f, arg) => c < |q.accepted| && head == q.head && f == Some(q.accepted[c].handler) &&
         arg == q.accepted[c].arg
       case StoreHead(head) => c < |q.accepted| && head == q.head
  }

  ghost predicate Inv(q: Queue) {
    && Sized(q) && q.consumed <= |q.accepted| < q.consumed + SIZE
    && q.head == Slot(q.consumed) && q.tail == Slot(|q.accepted|)
    && q.executed <= q.accepted
    && SlotsHold(q.handlers, q.args, q.accepted, q.consumed) && ProducerOk(q) && ConsumerOk(q)
  }

  lemma SlotNext(k: nat)
    ensures Slot(k + 1) == (Slot(k) + 1) % SIZE
  {
  }

  /** Indices fewer than SIZE apart are in different slots, and those SIZE apart in the same. */
  lemma SlotsDiffer(a: nat, b: nat)
    requires a < b <= a + SIZE
    ensures Slot(a) == Slot(b) <==> b == a + SIZE
  {
  }

  /** The slot being written is none of those that wait to be consumed. */
  lemma WriteElsewhere(q: Queue)
    requires Inv(q)
    ensures forall k :: q.consumed <= k < |q.accepted| ==> Slot(k) != Slot(|q.accepted|)
  {
    forall k | q.consumed <= k < |q.accepted| ensures Slot(k) != Slot(|q.accepted|) {
      SlotsDiffer(k, |q.accepted|);
    }
  }

  /** A store to another slot, and one more item once its slot is filled. */
  lemma SlotsAfterStore(q: Queue, handlers: seq<Option<nat>>, args: seq<u64>)
    requires Inv(q) && |handlers| == SIZE && |args| == SIZE
    requires forall s :: 0 <= s < SIZE && s != Slot(|q.accepted|) ==>
      handlers[s] == q.handlers[s] && args[s] == q.args[s]
    ensures SlotsHold(handlers, args, q.accepted, q.consumed)
    ensures forall item :: Holds(handlers, args, Slot(|q.accepted|), item) ==>
      SlotsHold(handlers, args, q.accepted + [item], q.consumed)
  {
    hide Slot, ProducerOk, ConsumerOk;
    WriteElsewhere(q);
  }

  lemma ProducerInv(q: Queue)
    requires Inv(q)
    ensures Inv(ProducerStep(q))
  {
    hide Slot, SlotsHold;
    var p := |q.accepted|;
    SlotNext(p);
    SlotsDiffer(q.consumed, p + 1);
    var q' := ProducerStep(q);
    assert SlotsHold(q'.handlers, q'.args, q'.accepted, q'.consumed) by { SlotsAfterStore(q, q'.handlers, q'.args); }
  }

  lemma ConsumerInv(q: Queue)
    requires Inv(q)
    ensures Inv(ConsumerStep(q))
  {
    SlotNext(q.consumed);
    if q.consumed < |q.accepted| { assert Holds(q.handlers, q.args, Slot(q.consumed), q.accepted[q.consumed]); }
    var q' := ConsumerStep(q);
    assert SlotsHold(q'.handlers, q'.args, q'.accepted, q'.consumed);
    hide Slot, SlotsHold;
  }

  lemma StepInv(q: Queue, step: Step)
    requires Inv(q)
    ensures Inv(Do(q, step))
  {
    hide ProducerStep, ConsumerStep, SlotsHold;
    ProducerInv(q);
    ConsumerInv(q);
  }

  // ----- Whole runs -----

  ghost predicate Reaches(q: Queue, steps: seq<Step>, q': Queue)
    decreases |steps|
  {
    if steps == [] then q' == q else Sized(q) && Reaches(Do(q, steps[0]), steps[1..], q')
  }

  lemma {:induction false} ReachableInv(q: Queue, steps: seq<Step>, q': Queue)
    requires Inv(q) && Reaches(q, steps, q')
    ensures Inv(q')
    decreases |steps|
  {
    hide Inv, Do;
    if steps != [] {
      StepInv(q, steps[0]);
      ReachableInv(Do(q, steps[0]), steps[1..], q');
    }
  }

  lemma InitialInv(q: Queue)
    requires Initial(q)
    ensures Inv(q)
  {
  }

  /** Under every interleaving: the calls made are, in order and one for one, the first of the items
      accepted, and at most 31 accepted items are not yet consumed. */
  lemma FifoOnce(q: Queue, steps: seq<Step>, q': Queue)
    requires Initial(q) && Reaches(q, steps, q')
    ensures q'.executed <= q'.accepted
    ensures q'.consumed <= |q'.executed| <= q'.consumed + 1 && |q'.accepted| - q'.consumed < SIZE
  {
    InitialInv(q);
    ReachableInv(q, steps, q');
  }

  /** In every reachable state, a store by the producer leaves every slot that is not yet consumed,
      and what the consumer is about to load, as it is. */
  lemma NoOverwrite(q: Queue, steps: seq<Step>, q': Queue, k: nat)
    requires Initial(q) && Reaches(q, steps, q') && q'.consumed <= k < |q'.accepted|
    ensures Sized(q') && Holds(q'.handlers, q'.args, Slot(k), q'.accepted[k])
    ensures var q2 := ProducerStep(q');
            q2.handlers[Slot(k)] == q'.handlers[Slot(k)] && q2.args[Slot(k)] == q'.args[Slot(k)]
  {
    hide Slot;
    InitialInv(q);
    ReachableInv(q, steps, q');
    WriteElsewhere(q');
  }

  /** A push is refused exactly when, as it reads the head, 31 items wait to be consumed. */
  lemma RefusedWhenFull(q: Queue)
    requires Inv(q) && q.producer.LoadHead?
    ensures ProducerStep(q).producer == Resting <==> |q.accepted| == q.consumed + SIZE - 1
  {
    SlotNext(|q.accepted|);
    SlotsDiffer(q.consumed, |q.accepted| + 1);
  }

  /** The consumer stops exactly when, as it reads the tail, everything accepted has been executed. */
  lemma StopsWhenEmpty(q: Queue)
    requires Inv(q) && q.consumer.TestTail?
    ensures ConsumerStep(q).consumer == Away <==> q.executed == q.accepted
  {
    hide Slot;
    if q.consumed < |q.accepted| { SlotsDiffer(q.consumed, |q.accepted|); }
  }

  /** One step of either side executes at most one item, and it is the oldest not yet executed. */
  lemma ExecutesOldest(q: Queue, step: Step)
    requires Inv(q)
    ensures var q' := Do(q, step);
            q'.executed == q.executed ||
              (|q.executed| < |q.accepted| && q'.executed == q.executed + [q.accepted[|q.executed|]])
    ensures q.accepted <= Do(q, step).accepted
  {
  }

  // ----- Accepted work gets done -----

  function Count(steps: seq<Step>, step: Step): nat {
    if steps == [] then 0 else Count(steps[1..], step) + if steps[0] == step then 1 else 0
  }

  /** How many steps a running consumer has taken, counted from its very first item. */
  function Progress(q: Queue): nat {
    7 * q.consumed +
    match q.consumer
    case Away => 0
    case TestHead => 0
    case TestTail(_) => 1
    case TakeHead => 2
    case LoadHandler(_) => 3
    case LoadArg(_, _) => 4
    case Call(_, _, _) => 5
    case StoreHead(_) => 6
  }

  /** Every seventh step of the consumer executes an item. */
  lemma ProgressExecutes(q: Queue)
    requires Inv(q)
    ensures |q.executed| == (Progress(q) + 1) / 7
  {
    hide SlotsHold, ProducerOk, Slot;
  }

  /** A running consumer gets on by each of its steps and by no other, until there is nothing left. */
  lemma ConsumerAdvances(q: Queue, step: Step)
    requires Inv(q) && q.consumer != Away
    ensures var q' := Do(q, step);
            if q'.consumer == Away then q'.executed == q'.accepted
            else Progress(q') == Progress(q) + if step == Consume then 1 else 0
  {
    hide SlotsHold, Slot;
    if q.consumer.TestTail? { StopsWhenEmpty(q); }
  }

  lemma {:induction false} Grows(q: Queue, steps: seq<Step>, q': Queue)
    requires Inv(q) && Reaches(q, steps, q')
    ensures |q.executed| <= |q'.executed| && q.accepted <= q'.accepted
    decreases |steps|
  {
    hide Inv, Do;
    if steps != [] {
      StepInv(q, steps[0]);
      ExecutesOldest(q, steps[0]);
      Grows(Do(q, steps[0]), steps[1..], q');
    }
  }

  /** Under every interleaving: once the consumer runs, whatever had been accepted by then is executed
      after seven steps of the consumer for each item that was waiting, at the latest. */
  lemma {:induction false} Served(q: Queue, steps: seq<Step>, q': Queue)
    requires Inv(q) && q.consumer != Away && Reaches(q, steps, q')
    requires Progress(q) + Count(steps, Consume) + 1 >= 7 * |q.accepted|
    ensures q.accepted <= q'.executed
    decreases |steps|
  {
    hide Inv, Do, Progress;
    ReachableInv(q, steps, q');
    Grows(q, steps, q');
    ServedSome(q, steps, q', |q.accepted|);
    PrefixOf(q, q');
  }

  lemma PrefixOf(q: Queue, q': Queue)
    requires Inv(q') && q.accepted <= q'.accepted && |q.accepted| <= |q'.executed|
    ensures q.accepted <= q'.executed
  {
    hide SlotsHold, ProducerOk, ConsumerOk, Slot;
    assert q'.executed == q'.accepted[..|q'.executed|];
  }

  lemma {:induction false} ServedSome(q: Queue, steps: seq<Step>, q': Queue, n: nat)
    requires Inv(q) && q.consumer != Away && Reaches(q, steps, q') && n <= |q.accepted|
    requires Progress(q) + Count(steps, Consume) + 1 >= 7 * n
    ensures |q'.executed| >= n
    decreases |steps|
  {
    hide Inv, Do, Progress;
    if steps == [] {
      ProgressExecutes(q);
    } else {
      var q1 := Do(q, steps[0]);
      StepInv(q, steps[0]);
      ConsumerAdvances(q, steps[0]);
      ExecutesOldest(q, steps[0]);
      if q1.consumer == Away {
        Grows(q1, steps[1..], q');
      } else {
        ServedSome(q1, steps[1..], q', n);
      }
    }
  }

  function Steps(step: Step, n: nat): (r: seq<Step>)
    ensures |r| == n && Count(r, step) == n
  {
    if n == 0 then [] else [step] + Steps(step, n - 1)
  }

  /** How far the consumer is from the end, when nothing more is accepted. */
  lemma ProgressBound(q: Queue)
    requires Inv(q)
    ensures Progress(q) <= 7 * |q.accepted| + 1
    ensures Progress(q) == 7 * |q.accepted| + 1 <==> q.consumer.TestTail? && q.consumed == |q.accepted|
  {
    hide SlotsHold, ProducerOk, Slot;
  }

  lemma LastStep(q: Queue)
    requires Inv(q) && q.consumer != Away
    ensures ConsumerStep(q).consumer == Away <==> q.consumer.TestTail? && q.consumed == |q.accepted|
    ensures ConsumerStep(q).accepted == q.accepted && ConsumerStep(q).producer == q.producer
  {
    hide SlotsHold, ProducerOk, Slot;
    if q.consumer.TestTail? && q.consumed < |q.accepted| { SlotsDiffer(q.consumed, |q.accepted|); }
  }

  /** Left alone, a running consumer executes everything and goes away: seven steps for each item, and
      two to see that there is none left. */
  lemma {:induction false} Drains(q: Queue) returns (q': Queue)
    requires Inv(q) && q.consumer != Away
    ensures Progress(q) <= 7 * |q.accepted| + 1
    ensures Reaches(q, Steps(Consume, 7 * |q.accepted| + 2 - Progress(q)), q')
    ensures q'.consumer == Away && q'.executed == q'.accepted == q.accepted && q'.producer == q.producer
    decreases 7 * |q.accepted| + 2 - Progress(q)
  {
    ProgressBound(q);
    LastStep(q);
    StepInv(q, Consume);
    ConsumerAdvances(q, Consume);
    InvFacts(q);
    hide Inv, Progress, ConsumerStep, Reaches;
    var n := 7 * |q.accepted| + 2 - Progress(q);
    var q1 := ConsumerStep(q);
    if q1.consumer == Away {
      q' := q1;
      ReachesHere(q1);
    } else {
      ProgressBound(q1);
      q' := Drains(q1);
    }
    ReachesFirst(q, n, q');
  }

  lemma ReachesHere(q: Queue)
    ensures Reaches(q, Steps(Consume, 0), q)
  {
  }

  lemma ReachesFirst(q: Queue, n: nat, q': Queue)
    requires Sized(q) && n > 0 && Reaches(ConsumerStep(q), Steps(Consume, n - 1), q')
    ensures Reaches(q, Steps(Consume, n), q')
  {
    hide ConsumerStep;
    assert Steps(Consume, n)[1..] == Steps(Consume, n - 1);
  }

  /** So an item that waits when the interrupt comes is executed. */
  lemma InterruptServes(q: Queue) returns (q': Queue)
    requires Inv(q) && q.consumer == Away
    ensures Reaches(Do(q, Interrupt), Steps(Consume, 7 * (|q.accepted| - |q.executed|) + 2), q')
    ensures q'.consumer == Away && q'.executed == q'.accepted == q.accepted
  {
    hide SlotsHold, ProducerOk, Slot, Reaches;
    StepInv(q, Interrupt);
    q' := Drains(Do(q, Interrupt));
  }

  // ----- A push that finds room -----

  /** A push of `item` behind the items `a` needs `n` more steps of the producer. */
  ghost predicate Placing(q: Queue, a: seq<Item>, item: Item, n: nat) {
    if n == 0 then a + [item] <= q.accepted
    else
      q.accepted == a &&
      (if n == 5 then q.producer == LoadTail(item) && |a| < q.consumed + SIZE - 1
       else if n == 4 then q.producer.LoadHead? && q.producer.item == item && |a| < q.consumed + SIZE - 1
       else if n == 3 then q.producer.StoreHandler? && q.producer.item == item
       else if n == 2 then q.producer.StoreArg? && q.producer.item == item
       else n == 1 && q.producer.StoreTail? && q.producer.item == item)
  }

  lemma PlacingStep(q: Queue, a: seq<Item>, item: Item, n: nat, step: Step)
    requires Inv(q) && Placing(q, a, item, n)
    ensures Placing(Do(q, step), a, item, if step == Produce && n > 0 then n - 1 else n)
  {
    ExecutesOldest(q, step);
    if q.producer.LoadHead? { RefusedWhenFull(q); }
    hide SlotsHold, ConsumerOk;
  }

  /** Under every interleaving: a push that starts while fewer than 31 items wait is accepted after five
      steps of the producer. */
  lemma {:induction false} PushAccepted(q: Queue, steps: seq<Step>, q': Queue, a: seq<Item>, item: Item, n: nat)
    requires Inv(q) && Reaches(q, steps, q') && Placing(q, a, item, n) && Count(steps, Produce) >= n
    ensures a + [item] <= q'.accepted
    decreases |steps|
  {
    hide Inv, Do, Placing;
    if steps == [] {
      PlacedIs(q, a, item);
    } else {
      StepInv(q, steps[0]);
      PlacingStep(q, a, item, n, steps[0]);
      PushAccepted(Do(q, steps[0]), steps[1..], q', a, item, if steps[0] == Produce && n > 0 then n - 1 else n);
    }
  }

  lemma PlacedIs(q: Queue, a: seq<Item>, item: Item)
    requires Placing(q, a, item, 0)
    ensures a + [item] <= q.accepted
  {
  }

  lemma InvFacts(q: Queue)
    requires Inv(q)
    ensures Sized(q) && |q.executed| <= |q.accepted|
  {
    hide SlotsHold, ProducerOk, ConsumerOk;
  }

  /** From the call of `push_work` to a full round of the consumer: an item that finds room is executed. */
  lemma PushedIsExecuted(q: Queue, item: Item, steps: seq<Step>, q1: Queue) returns (q': Queue)
    requires Inv(q) && q.producer == Resting && |q.accepted| < q.consumed + SIZE - 1
    requires Reaches(Do(q, Push(item)), steps, q1) && Count(steps, Produce) >= 5 && q1.consumer == Away
    ensures Sized(q1) && |q1.executed| <= |q1.accepted|
    ensures Reaches(Do(q1, Interrupt), Steps(Consume, 7 * (|q1.accepted| - |q1.executed|) + 2), q')
    ensures q.accepted + [item] <= q'.executed
  {
    hide Inv, Reaches, ProducerStep, ConsumerStep;
    InvFacts(q);
    StepInv(q, Push(item));
    PushAccepted(Do(q, Push(item)), steps, q1, q.accepted, item, 5);
    ReachableInv(Do(q, Push(item)), steps, q1);
    InvFacts(q1);
    q' := InterruptServes(q1);
  }
}
