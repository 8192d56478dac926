/** The ring's atomic steps under every interleaving of one producer and one consumer
    (include/infra/SPSCRingBuffer.h).

    An index is the history of the values stored to it. Its writer reads the last one; the other side may read any value
    from the last one it has seen onwards. */
module RingProtocol {
  import opened Bits

  datatype Producer<T> =
    | Idle | Loaded(value: T, head: nat) | Cleared(value: T, head: nat) | Written(value: T, head: nat)
  datatype Consumer<T> = Waiting | Started(tail: nat) | Ready(tail: nat) | Holding(tail: nat, out: T)

  /** `pushed` and `popped` are the values whose index stores have happened. */
  datatype State<T> = State(
    capacity: nat, slots: seq<T>, heads: seq<nat>, tails: seq<nat>, seenHead: nat, seenTail: nat,
    producer: Producer<T>, consumer: Consumer<T>, pushed: seq<T>, popped: seq<T>)

  datatype Step<T> =
    | LoadHead(value: T) | CheckTail(k: nat) | WriteSlot | StoreHead
    | LoadTail | CheckHead(k: nat) | ReadSlot | StoreTail | Peek(k: nat)

  predicate Allowed<T>(s: State<T>, step: Step<T>) {
    s.capacity > 0 && s.heads != [] && s.tails != [] &&
    match step
    case LoadHead(_) => s.producer.Idle?
    case CheckTail(k) => s.producer.Loaded? && s.seenTail <= k < |s.tails|
    case WriteSlot => s.producer.Cleared? && s.producer.head < |s.slots|
    case StoreHead => s.producer.Written?
    case LoadTail => s.consumer.Waiting?
    case CheckHead(k) => s.consumer.Started? && s.seenHead <= k < |s.heads|
    case ReadSlot => s.consumer.Ready? && s.consumer.tail < |s.slots|
    case StoreTail => s.consumer.Holding?
    case Peek(k) => s.consumer.Waiting? && s.seenHead <= k < |s.heads|
  }

  function Act<T>(s: State<T>, step: Step<T>): State<T>
    requires Allowed(s, step)
  {
    match step
    case LoadHead(v) => s.(producer := Loaded(v, s.heads[|s.heads| - 1]))
    case CheckTail(k) =>
      var full := Slot(s.producer.head + 1, s.capacity) == s.tails[k];
      s.(seenTail := k, producer := if full then Idle else Cleared(s.producer.value, s.producer.head))
    case WriteSlot =>
      s.(slots := s.slots[s.producer.head := s.producer.value], producer := Written(s.producer.value, s.producer.head))
    case StoreHead =>
      s.(heads := s.heads + [Slot(s.producer.head + 1, s.capacity)], pushed := s.pushed + [s.producer.value],
         producer := Idle)
    case LoadTail => s.(consumer := Started(s.tails[|s.tails| - 1]))
    case CheckHead(k) =>
      s.(seenHead := k, consumer := if s.consumer.tail == s.heads[k] then Waiting else Ready(s.consumer.tail))
    case ReadSlot => s.(consumer := Holding(s.consumer.tail, s.slots[s.consumer.tail]))
    case StoreTail =>
      s.(tails := s.tails + [Slot(s.consumer.tail + 1, s.capacity)], popped := s.popped + [s.consumer.out],
         consumer := Waiting)
    case Peek(k) => s.(seenHead := k)
  }

  /** The consumer's `empty`: its own index against the head value it reads. */
  predicate LooksEmpty<T>(s: State<T>, k: nat)
    requires Allowed(s, Peek(k))
  {
    s.tails[|s.tails| - 1] == s.heads[k]
  }

  predicate Initial<T>(s: State<T>) {
    && s.capacity == |s.slots| >= 2 && s.heads == s.tails == [0] && s.seenHead == s.seenTail == 0
    && s.producer.Idle? && s.consumer.Waiting? && |s.pushed| == |s.popped| == 0
  }

  /** Entry `i` of an index history is `i` modulo the capacity, and there is one entry per store. */
  ghost predicate History(h: seq<nat>, stores: nat, c: nat)
    requires c > 0
  {
    |h| == stores + 1 && forall i | 0 <= i < |h| :: h[i] == Slot(i, c)
  }

  ghost predicate Queued<T>(s: State<T>)
    requires s.capacity == |s.slots| > 0
  {
    forall i | |s.popped| <= i < |s.pushed| :: s.slots[Slot(i, s.capacity)] == s.pushed[i]
  }

  ghost predicate ProducerOk<T>(s: State<T>)
    requires s.capacity == |s.slots| > 0
  {
    && (!s.producer.Idle? ==> s.producer.head == Slot(|s.pushed|, s.capacity))
    && (s.producer.Cleared? || s.producer.Written? ==> |s.pushed| + 1 - s.seenTail < s.capacity)
    && (s.producer.Written? ==> s.slots[s.producer.head] == s.producer.value)
  }

  ghost predicate ConsumerOk<T>(s: State<T>)
    requires s.capacity > 0
  {
    && (!s.consumer.Waiting? ==> s.consumer.tail == Slot(|s.popped|, s.capacity))
    && (s.consumer.Ready? || s.consumer.Holding? ==> |s.popped| < s.seenHead)
    && (s.consumer.Holding? && |s.popped| < |s.pushed| ==> s.consumer.out == s.pushed[|s.popped|])
  }

  ghost predicate Invariant<T>(s: State<T>) {
    && s.capacity == |s.slots| >= 2
    && History(s.heads, |s.pushed|, s.capacity) && History(s.tails, |s.popped|, s.capacity)
    && s.seenTail <= |s.popped| <= s.seenHead <= |s.pushed| < s.seenTail + s.capacity
    && s.popped <= s.pushed && Queued(s) && ProducerOk(s) && ConsumerOk(s)
  }

  lemma ProducerKeeps<T>(s: State<T>, step: Step<T>)
    requires Invariant(s) && Allowed(s, step)
    requires step.LoadHead? || step.CheckTail? || step.WriteSlot? || step.StoreHead?
    ensures Invariant(Act(s, step))
  {
    hide Slot;
    var h := |s.pushed|;
    match step {
      case LoadHead(_) =>
      case CheckTail(k) =>
        SlotAfter(h, s.capacity);
        if h + 1 == k + s.capacity {
          SlotWraps(k, s.capacity);
        }
      case WriteSlot =>
        SlotsSpread(|s.popped|, h - |s.popped|, s.capacity);
      case StoreHead =>
        SlotAfter(h, s.capacity);
    }
  }

  lemma ConsumerKeeps<T>(s: State<T>, step: Step<T>)
    requires Invariant(s) && Allowed(s, step)
    requires !step.LoadHead? && !step.CheckTail? && !step.WriteSlot? && !step.StoreHead?
    ensures Invariant(Act(s, step))
  {
    hide Slot;
    var t := |s.popped|;
    match step {
      case LoadTail =>
      case CheckHead(k) =>
      case ReadSlot =>
      case StoreTail =>
        SlotAfter(t, s.capacity);
        assert s.popped + [s.consumer.out] <= s.pushed;
      case Peek(k) =>
    }
  }

  ghost predicate Next<T(!new)>(s: State<T>, s': State<T>) {
    exists step :: Allowed(s, step) && s' == Act(s, step)
  }

  ghost predicate IsRun<T(!new)>(states: seq<State<T>>) {
    states != [] && Initial(states[0]) && forall i | 0 < i < |states| :: Next(states[i - 1], states[i])
  }

  lemma {:induction false} RunKeepsInvariant<T(!new)>(states: seq<State<T>>, n: nat)
    requires IsRun(states) && n < |states|
    ensures Invariant(states[n])
  {
    if n > 0 {
      hide Invariant, Act, Allowed;
      RunKeepsInvariant(states, n - 1);
      assert Next(states[n - 1], states[n]);
      StepKeeps(states[n - 1], states[n]);
    }
  }

  lemma StepKeeps<T(!new)>(s: State<T>, s': State<T>)
    requires Invariant(s) && Next(s, s')
    ensures Invariant(s')
  {
    var step :| Allowed(s, step) && s' == Act(s, step);
    hide Invariant, Act, Allowed;
    if step.LoadHead? || step.CheckTail? || step.WriteSlot? || step.StoreHead? {
      ProducerKeeps(s, step);
    } else {
      ConsumerKeeps(s, step);
    }
  }

  /** In every state of every run: first in first out with nothing lost, at most `capacity - 1` in flight, slot accesses
      in range, and the slot the producer may write never the one the consumer may read. */
  lemma RingIsSafe<T(!new)>(states: seq<State<T>>, n: nat)
    requires IsRun(states) && n < |states|
    ensures var s := states[n];
            && s.popped <= s.pushed && |s.pushed| - |s.popped| <= s.capacity - 1
            && (s.producer.Cleared? ==> Allowed(s, WriteSlot)) && (s.consumer.Ready? ==> Allowed(s, ReadSlot))
            && (s.producer.Cleared? && (s.consumer.Ready? || s.consumer.Holding?) ==>
                  s.producer.head != s.consumer.tail)
  {
    RunKeepsInvariant(states, n);
    var s := states[n];
    if s.producer.Cleared? && (s.consumer.Ready? || s.consumer.Holding?) {
      hide Slot;
      SlotsDistinct(|s.popped|, |s.pushed|, s.capacity);
    }
  }

  /** A call gives up only if the index value it read says full, respectively empty. */
  lemma FailuresAreExact<T(!new)>(states: seq<State<T>>, n: nat, k: nat)
    requires IsRun(states) && n < |states|
    ensures var s := states[n];
            && (Allowed(s, CheckTail(k)) ==>
                  (Act(s, CheckTail(k)).producer.Idle? <==> |s.pushed| - k == s.capacity - 1))
            && (Allowed(s, CheckHead(k)) ==>
                  (Act(s, CheckHead(k)).consumer.Waiting? <==> k == |s.popped|))
            && (Allowed(s, Peek(k)) ==> (LooksEmpty(s, k) <==> k == |s.popped|))
  {
    hide Invariant, Act, Allowed, LooksEmpty;
    RunKeepsInvariant(states, n);
    ReadsAreExact(states[n], k);
  }

  lemma ReadsAreExact<T>(s: State<T>, k: nat)
    requires Invariant(s)
    ensures Allowed(s, CheckTail(k)) ==>
              (Act(s, CheckTail(k)).producer.Idle? <==> |s.pushed| - k == s.capacity - 1)
    ensures Allowed(s, CheckHead(k)) ==> (Act(s, CheckHead(k)).consumer.Waiting? <==> k == |s.popped|)
    ensures Allowed(s, Peek(k)) ==> (LooksEmpty(s, k) <==> k == |s.popped|)
  {
    hide Slot;
    if Allowed(s, CheckTail(k)) {
      SlotAfter(|s.pushed|, s.capacity);
      SlotWraps(k, s.capacity);
      if |s.pushed| + 1 < k + s.capacity {
        SlotsDistinct(k, |s.pushed| + 1, s.capacity);
      }
    }
    if (Allowed(s, CheckHead(k)) || Allowed(s, Peek(k))) && k > |s.popped| {
      SlotsDistinct(|s.popped|, k, s.capacity);
    }
  }

  // --- The ring as an inbox --------------------------------------------------------------------

  /** All that the two sides can tell of the ring: what was pushed, how much was popped, how far the consumer sees. */
  datatype Inbox<T> = Inbox(pushed: seq<T>, popped: nat, seen: nat)

  function View<T>(s: State<T>): Inbox<T> {
    Inbox(s.pushed, |s.popped|, s.seenHead)
  }

  /** Nothing, a push while there is room, a look at the head index, or a pop of something seen. */
  ghost predicate InboxStep<T(!new)>(a: Inbox<T>, b: Inbox<T>, capacity: nat) {
    || b == a
    || (|a.pushed| - a.popped < capacity - 1 && exists v :: b == a.(pushed := a.pushed + [v]))
    || (a.seen <= b.seen <= |a.pushed| && b == a.(seen := b.seen))
    || (a.popped < a.seen && b == a.(popped := a.popped + 1))
  }

  /** The interleaved steps amount to steps of the inbox, and what is popped is the next value pushed. */
  lemma RingIsInbox<T(!new)>(states: seq<State<T>>, n: nat)
    requires IsRun(states) && n + 1 < |states|
    ensures InboxStep(View(states[n]), View(states[n + 1]), states[n].capacity)
    ensures var s, s' := states[n], states[n + 1];
            |s.popped| < |s'.popped| ==> |s.popped| < |s.pushed| && s'.popped == s.popped + [s.pushed[|s.popped|]]
  {
    hide Invariant, Act, Allowed, InboxStep;
    RunKeepsInvariant(states, n);
    assert Next(states[n], states[n + 1]);
    var step :| Allowed(states[n], step) && states[n + 1] == Act(states[n], step);
    StepIsInbox(states[n], step);
  }

  lemma StepIsInbox<T(!new)>(s: State<T>, step: Step<T>)
    requires Invariant(s) && Allowed(s, step)
    ensures InboxStep(View(s), View(Act(s, step)), s.capacity)
    ensures var s' := Act(s, step);
            |s.popped| < |s'.popped| ==> |s.popped| < |s.pushed| && s'.popped == s.popped + [s.pushed[|s.popped|]]
  {
    hide Slot, Queued;
    if step.StoreHead? {
      assert View(Act(s, step)) == View(s).(pushed := View(s).pushed + [s.producer.value]);
    }
  }

  // --- Calls that are not disturbed ------------------------------------------------------------

  /** A push whose steps are not interleaved and whose read is current appends its value if there is room, and otherwise
      gives up and changes nothing that the consumer can see. */
  ghost predicate Pushes<T(!new)>(s: State<T>, v: T) {
    var k := |s.tails| - 1;
    Allowed(s, LoadHead(v)) &&
    var s1 := Act(s, LoadHead(v));
    k >= 0 && Allowed(s1, CheckTail(k)) &&
    var s2 := Act(s1, CheckTail(k));
    if |s.pushed| - |s.popped| == s.capacity - 1 then s2 == s.(seenTail := k)
    else
      Allowed(s2, WriteSlot) &&
      var s3 := Act(s2, WriteSlot);
      Allowed(s3, StoreHead) &&
      var s4 := Act(s3, StoreHead);
      && s4.producer.Idle? && s4.pushed == s.pushed + [v] && s4.popped == s.popped
      && s4.consumer == s.consumer && s4.seenHead == s.seenHead && s4.tails == s.tails
  }

  /** A pop whose steps are not interleaved and whose read is current hands out the oldest value, or finds none. */
  ghost predicate Pops<T(!new)>(s: State<T>) {
    var k := |s.heads| - 1;
    Allowed(s, LoadTail) &&
    var s1 := Act(s, LoadTail);
    k >= 0 && Allowed(s1, CheckHead(k)) &&
    var s2 := Act(s1, CheckHead(k));
    if |s.pushed| == |s.popped| then s2 == s.(seenHead := k)
    else
      s2.consumer.Ready? && Allowed(s2, ReadSlot) &&
      var s3 := Act(s2, ReadSlot);
      Allowed(s3, StoreTail) &&
      var s4 := Act(s3, StoreTail);
      && |s.popped| < |s.pushed| && s4.consumer.Waiting? && s4.popped == s.popped + [s.pushed[|s.popped|]]
      && s4.pushed == s.pushed && s4.producer == s.producer && s4.slots == s.slots && s4.heads == s.heads
  }

  lemma IdlePushes<T(!new)>(s: State<T>, v: T)
    requires Invariant(s) && s.producer.Idle?
    ensures Pushes(s, v)
  {
    var s1 := Act(s, LoadHead(v));
    ProducerKeeps(s, LoadHead(v));
    ReadsAreExact(s1, |s.tails| - 1);
    hide Slot;
  }

  lemma WaitingPops<T(!new)>(s: State<T>)
    requires Invariant(s) && s.consumer.Waiting?
    ensures Pops(s)
  {
    var s1 := Act(s, LoadTail);
    ConsumerKeeps(s, LoadTail);
    ReadsAreExact(s1, |s.heads| - 1);
    hide Slot;
  }

  /** In every reachable state, undisturbed calls do what they are for. */
  lemma CallsAlone<T(!new)>(states: seq<State<T>>, n: nat, v: T)
    requires IsRun(states) && n < |states|
    ensures states[n].producer.Idle? ==> Pushes(states[n], v)
    ensures states[n].consumer.Waiting? ==> Pops(states[n])
  {
    hide Invariant, Pushes, Pops;
    RunKeepsInvariant(states, n);
    if states[n].producer.Idle? {
      IdlePushes(states[n], v);
    }
    if states[n].consumer.Waiting? {
      WaitingPops(states[n]);
    }
  }

  /** Every ring of at least two slots can be started, whatever its slots hold. */
  lemma NewRing<T>(slots: seq<T>) returns (s: State<T>)
    requires |slots| >= 2
    ensures Initial(s) && s.slots == slots && s.capacity == |slots|
  {
    s := State(|slots|, slots, [0], [0], 0, 0, Idle, Waiting, [], []);
  }
}
