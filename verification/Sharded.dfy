/** Per-symbol engines behind one inbox and one worker per shard (include/matching/ShardedEngine.h). */
module Sharded {
  import opened Protocol
  import opened Ladders
  import opened Capacity
  import opened Bits

  /** The hash of a symbol. */
  function Mix(symbolPacked: u64): nat {
    var h := Xor(symbolPacked, Shr(symbolPacked, 33));
    var mixed := h * 0xff51afd7ed558ccd % TWO_64;
    Xor(mixed, Shr(mixed, 33))
  }

  /** The shard that owns a symbol. */
  function ShardIndex(symbolPacked: u64, shards: nat): (i: nat)
    requires shards > 0
    ensures i < shards
  {
    Mix(symbolPacked) % shards
  }

  /** The symbol with this hash: the same folding, with the inverse of the multiplier modulo 2^64. */
  function Unmix(hash: nat): nat {
    var h := Xor(hash, Shr(hash, 33));
    var mixed := h * 0x4f74430c22a54005 % TWO_64;
    Xor(mixed, Shr(mixed, 33))
  }

  /** No two symbols have the same hash: it is a 64-bit word from which the symbol can be computed. */
  lemma MixIsInvertible(symbolPacked: u64)
    ensures Mix(symbolPacked) < TWO_64 && Unmix(Mix(symbolPacked)) == symbolPacked
  {
    hide Xor, Shr, Pow2;
    WordSize();
    var h := Xor(symbolPacked, Shr(symbolPacked, 33));
    FoldTwice(symbolPacked, 64, 33);
    var mixed := h * 0xff51afd7ed558ccd % TWO_64;
    FoldTwice(mixed, 64, 33);
    InverseModulo(h, 0xff51afd7ed558ccd, 0x4f74430c22a54005, 5710046619856821070, TWO_64);
  }

  /** With as many shards as there are hashes, every symbol would have a shard of its own. */
  lemma EnoughShardsSeparate(a: u64, b: u64)
    requires a != b
    ensures ShardIndex(a, TWO_64) != ShardIndex(b, TWO_64)
  {
    hide Mix, Unmix;
    MixIsInvertible(a);
    MixIsInvertible(b);
  }

  /** What a worker keeps: an engine per symbol over one pool, and the fills in production order. */
  datatype ShardState = ShardState(engines: map<u64, Book>, free: nat, fills: seq<Fill>)

  ghost predicate BooksOk(engines: map<u64, Book>) {
    forall s | s in engines :: BookOk(engines[s])
  }

  ghost function BookFor(engines: map<u64, Book>, symbol: u64): (b: Book)
    requires BooksOk(engines)
    ensures BookOk(b)
  {
    if symbol in engines then engines[symbol] else EMPTY_BOOK
  }

  ghost function ServeShard(s: ShardState, m: FeedMessage): (r: ShardState)
    requires BooksOk(s.engines)
    ensures BooksOk(r.engines)
  {
    if !IsValidFeedMessage(m) then s
    else
      var d := Serve(Desk(BookFor(s.engines, m.symbolPacked), s.free, s.fills), m);
      ShardState(s.engines[m.symbolPacked := d.book], d.free, d.fills)
  }

  /** A shard with a pool of `capacity` slots, after these messages. */
  ghost function ShardRun(capacity: nat, msgs: seq<FeedMessage>): (r: ShardState)
    ensures BooksOk(r.engines)
  {
    if msgs == [] then ShardState(map[], capacity, [])
    else ServeShard(ShardRun(capacity, msgs[..|msgs| - 1]), msgs[|msgs| - 1])
  }

  /** The messages among `msgs` that shard `i` of `n` owns. */
  function Routed(msgs: seq<FeedMessage>, i: nat, n: nat): seq<FeedMessage>
    requires n > 0
  {
    if msgs == [] then []
    else
      var init, m := Routed(msgs[..|msgs| - 1], i, n), msgs[|msgs| - 1];
      if ShardIndex(m.symbolPacked, n) == i then init + [m] else init
  }

  // --- Gateway and workers ---------------------------------------------------------------------

  /** Where a worker is; `draining` after its main loop has ended. */
  datatype Pc =
    | Top                                   // about to read the stop flag
    | EmptyCheck                            // stop seen, about to look for leftovers
    | Pop(draining: bool)
    | Applying(m: FeedMessage, draining: bool)
    | Counting(draining: bool)
    | Exited

  /** `seen` is how far into the inbox the worker's view of the head index reaches, `due` how many messages the inbox
      had received when the stop flag was last set. */
  datatype Shard = Shard(
    pushed: seq<FeedMessage>, popped: nat, seen: nat, stop: bool, due: nat, pc: Pc, processed: nat, state: ShardState)

  datatype Phase = Open | Stopping(flagged: nat) | Stopped

  /** `sealed` is how many messages had been routed when `stop` was last called. */
  datatype System = System(shards: seq<Shard>, phase: Phase, routed: seq<FeedMessage>, sealed: nat)

  /** The messages routed before `stop` was last called. */
  function BeforeStop(s: System): seq<FeedMessage> {
    if s.sealed <= |s.routed| then s.routed[..s.sealed] else s.routed
  }

  datatype WorkerStep = ReadStop(flag: bool) | CheckEmpty(k: nat) | TryPop(k: nat) | ApplyOne | CountOne

  datatype Step = Route(m: FeedMessage) | BeginStop | FlagNext | Join | Restart | Worker(i: nat, step: WorkerStep)

  /** An index read returns any value from the last one seen to the last one stored. */
  predicate CanRead(s: Shard, k: nat) {
    s.seen <= k <= |s.pushed|
  }

  ghost predicate WorkerAllowed(s: Shard, step: WorkerStep) {
    match step
    case ReadStop(flag) => s.pc.Top? && (flag ==> s.stop)
    case CheckEmpty(k) => s.pc.EmptyCheck? && CanRead(s, k)
    case TryPop(k) => s.pc.Pop? && CanRead(s, k)
    case ApplyOne => s.pc.Applying? && BooksOk(s.state.engines)
    case CountOne => s.pc.Counting?
  }

  /** Reading the stop flag as set also makes the worker see every message pushed before it was set. */
  ghost function WorkerAct(s: Shard, step: WorkerStep): Shard
    requires WorkerAllowed(s, step)
  {
    match step
    case ReadStop(flag) => if flag then s.(seen := |s.pushed|, pc := EmptyCheck) else s.(pc := Pop(false))
    case CheckEmpty(k) => s.(seen := k, pc := Pop(k <= s.popped))
    case TryPop(k) =>
      if k <= s.popped then s.(seen := k, pc := if s.pc.draining then Exited else Top)
      else s.(seen := k, popped := s.popped + 1, pc := Applying(s.pushed[s.popped], s.pc.draining))
    case ApplyOne => s.(state := ServeShard(s.state, s.pc.m), pc := Counting(s.pc.draining))
    case CountOne => s.(processed := s.processed + 1, pc := if s.pc.draining then Pop(true) else Top)
  }

  ghost predicate Allowed(s: System, step: Step) {
    match step
    case Route(m) => !s.phase.Stopping? && s.shards != []
    case BeginStop => s.phase.Open?
    case FlagNext => s.phase.Stopping? && s.phase.flagged < |s.shards|
    case Join =>
      && s.phase.Stopping? && s.phase.flagged == |s.shards|
      && forall i | 0 <= i < |s.shards| :: s.shards[i].pc.Exited?
    case Restart => s.phase.Stopped?
    case Worker(i, w) => i < |s.shards| && WorkerAllowed(s.shards[i], w)
  }

  ghost function Act(s: System, step: Step): System
    requires Allowed(s, step)
  {
    match step
    case Route(m) =>
      var i := ShardIndex(m.symbolPacked, |s.shards|);
      var shard := s.shards[i];
      s.(shards := s.shards[i := shard.(pushed := shard.pushed + [m])], routed := s.routed + [m])
    case BeginStop => s.(phase := Stopping(0), sealed := |s.routed|)
    case FlagNext =>
      var i := s.phase.flagged;
      s.(shards := s.shards[i := s.shards[i].(stop := true, due := |s.shards[i].pushed|)], phase := Stopping(i + 1))
    case Join => s.(phase := Stopped)
    case Restart =>
      s.(shards := seq(|s.shards|, i requires 0 <= i < |s.shards| => s.shards[i].(stop := false, pc := Top)),
         phase := Open)
    case Worker(i, w) => s.(shards := s.shards[i := WorkerAct(s.shards[i], w)])
  }

  ghost predicate Initial(s: System, capacity: nat) {
    && s.shards != [] && s.phase == Open && s.routed == [] && s.sealed == 0
    && forall i | 0 <= i < |s.shards| ::
       s.shards[i] == Shard([], 0, 0, false, 0, Top, 0, ShardState(map[], capacity, []))
  }

  ghost predicate Next(s: System, s': System) {
    exists step :: Allowed(s, step) && s' == Act(s, step)
  }

  ghost predicate IsRun(states: seq<System>, capacity: nat) {
    states != [] && Initial(states[0], capacity) && forall i | 0 < i < |states| :: Next(states[i - 1], states[i])
  }

  // --- Invariant -------------------------------------------------------------------------------

  /** Popped messages whose effect is not yet in the engines. */
  function InHand(pc: Pc): nat {
    if pc.Applying? then 1 else 0
  }

  function Uncounted(pc: Pc): nat {
    if pc.Applying? || pc.Counting? then 1 else 0
  }

  /** The worker has read the stop flag and is on its way out. */
  predicate Finishing(pc: Pc) {
    match pc
    case Top => false
    case EmptyCheck => true
    case Pop(d) => d
    case Applying(_, d) => d
    case Counting(d) => d
    case Exited => true
  }

  ghost predicate ShardOk(s: Shard, capacity: nat) {
    && Uncounted(s.pc) <= s.popped <= s.seen <= |s.pushed|
    && s.state == ShardRun(capacity, s.pushed[..s.popped - InHand(s.pc)])
    && s.processed == s.popped - Uncounted(s.pc)
    && (s.pc.Applying? ==> s.pc.m == s.pushed[s.popped - 1])
    && (s.stop ==> s.due <= |s.pushed| && (!s.pc.Exited? ==> s.due == |s.pushed|))
    && (Finishing(s.pc) ==> s.stop && s.seen >= s.due)
    && (s.pc.Exited? ==> s.popped == s.due)
  }

  /** What shard `i` had received when its flag was set is its share of what had been routed when `stop` was called. */
  ghost predicate Sealed(shard: Shard, routed: seq<FeedMessage>, sealed: nat, i: nat, n: nat)
    requires n > 0
  {
    shard.due <= |shard.pushed| && sealed <= |routed| && shard.pushed[..shard.due] == Routed(routed[..sealed], i, n)
  }

  ghost predicate Invariant(s: System, capacity: nat) {
    && s.shards != []
    && (forall i | 0 <= i < |s.shards| :: ShardOk(s.shards[i], capacity))
    && (forall i | 0 <= i < |s.shards| :: s.shards[i].pushed == Routed(s.routed, i, |s.shards|))
    && s.sealed <= |s.routed| && (s.phase.Stopping? ==> s.sealed == |s.routed|)
    && (forall i | 0 <= i < |s.shards| && s.shards[i].stop ::
          && !s.phase.Open? && (s.phase.Stopping? ==> i < s.phase.flagged)
          && Sealed(s.shards[i], s.routed, s.sealed, i, |s.shards|))
    && (s.phase.Stopped? ==> forall i | 0 <= i < |s.shards| :: s.shards[i].pc.Exited?)
  }

  lemma ApplyKeeps(s: Shard, capacity: nat)
    requires ShardOk(s, capacity) && WorkerAllowed(s, ApplyOne)
    ensures ShardOk(WorkerAct(s, ApplyOne), capacity)
  {
    hide ShardRun, ServeShard;
    var before := s.pushed[..s.popped - 1];
    assert s.pushed[..s.popped] == before + [s.pc.m];
    ShardRunStep(capacity, before, s.pc.m);
  }

  lemma PopKeeps(s: Shard, k: nat, capacity: nat)
    requires ShardOk(s, capacity) && WorkerAllowed(s, TryPop(k))
    ensures ShardOk(WorkerAct(s, TryPop(k)), capacity)
  {
    hide ShardRun;
    var t := WorkerAct(s, TryPop(k));
    assert t.popped - InHand(t.pc) == s.popped;
  }

  lemma WorkerKeeps(s: Shard, step: WorkerStep, capacity: nat)
    requires ShardOk(s, capacity) && WorkerAllowed(s, step)
    ensures var t := WorkerAct(s, step);
            ShardOk(t, capacity) && t.pushed == s.pushed && t.stop == s.stop && t.due == s.due && !s.pc.Exited?
  {
    hide ShardRun, ServeShard, BooksOk;
    match step {
      case ApplyOne => ApplyKeeps(s, capacity);
      case TryPop(k) => PopKeeps(s, k, capacity);
      case _ => assert WorkerAct(s, step).popped - InHand(WorkerAct(s, step).pc) == s.popped - InHand(s.pc);
    }
  }

  lemma ShardRunStep(capacity: nat, msgs: seq<FeedMessage>, m: FeedMessage)
    ensures ShardRun(capacity, msgs + [m]) == ServeShard(ShardRun(capacity, msgs), m)
  {
  }

  lemma RouteShard(s: Shard, m: FeedMessage, capacity: nat)
    requires ShardOk(s, capacity) && (s.stop ==> s.pc.Exited?)
    ensures ShardOk(s.(pushed := s.pushed + [m]), capacity)
  {
    hide ShardRun;
    var n := s.popped - InHand(s.pc);
    assert (s.pushed + [m])[..n] == s.pushed[..n];
  }

  lemma RoutedStep(msgs: seq<FeedMessage>, m: FeedMessage, i: nat, n: nat)
    requires n > 0
    ensures Routed(msgs + [m], i, n) == Routed(msgs, i, n) + if ShardIndex(m.symbolPacked, n) == i then [m] else []
  {
  }

  lemma RouteKeeps(s: System, m: FeedMessage, capacity: nat)
    requires Invariant(s, capacity) && Allowed(s, Route(m))
    ensures Invariant(Act(s, Route(m)), capacity)
  {
    hide ShardIndex, ShardOk, Routed;
    var j := ShardIndex(m.symbolPacked, |s.shards|);
    RouteShard(s.shards[j], m, capacity);
    forall i | 0 <= i < |s.shards|
      ensures Routed(s.routed + [m], i, |s.shards|) == Routed(s.routed, i, |s.shards|) + if i == j then [m] else []
    {
      RoutedStep(s.routed, m, i, |s.shards|);
    }
    assert (s.routed + [m])[..s.sealed] == s.routed[..s.sealed];
    forall i | 0 <= i < |s.shards| && s.shards[i].stop
      ensures Sealed(Act(s, Route(m)).shards[i], s.routed + [m], s.sealed, i, |s.shards|)
    {
      var due, pushed := s.shards[i].due, s.shards[i].pushed;
      assert Sealed(s.shards[i], s.routed, s.sealed, i, |s.shards|);
      assert (pushed + [m])[..due] == pushed[..due];
    }
  }

  lemma FlagKeeps(s: System, capacity: nat)
    requires Invariant(s, capacity) && Allowed(s, FlagNext)
    ensures Invariant(Act(s, FlagNext), capacity)
  {
    hide ShardRun, ShardIndex, Routed;
    var shard := s.shards[s.phase.flagged];
    assert shard.pushed[..|shard.pushed|] == shard.pushed && s.routed[..|s.routed|] == s.routed;
  }

  lemma StepKeeps(s: System, s': System, capacity: nat)
    requires Invariant(s, capacity) && Next(s, s')
    ensures Invariant(s', capacity) && |s'.shards| == |s.shards|
  {
    hide Invariant, ShardIndex, WorkerAct;
    var step :| Allowed(s, step) && s' == Act(s, step);
    match step {
      case Route(m) => RouteKeeps(s, m, capacity);
      case Worker(i, w) => TurnKeeps(s, i, w, capacity);
      case BeginStop => PhaseKeeps(s, step, capacity);
      case FlagNext => FlagKeeps(s, capacity);
      case Join => PhaseKeeps(s, step, capacity);
      case Restart => PhaseKeeps(s, step, capacity);
    }
  }

  lemma TurnKeeps(s: System, i: nat, w: WorkerStep, capacity: nat)
    requires Invariant(s, capacity) && Allowed(s, Worker(i, w))
    ensures Invariant(Act(s, Worker(i, w)), capacity)
  {
    hide ShardOk, Routed, WorkerAct, WorkerAllowed;
    WorkerKeeps(s.shards[i], w, capacity);
  }

  lemma PhaseKeeps(s: System, step: Step, capacity: nat)
    requires Invariant(s, capacity) && Allowed(s, step) && (step.BeginStop? || step.Join? || step.Restart?)
    ensures Invariant(Act(s, step), capacity)
  {
    hide ShardRun, Routed;
  }

  lemma {:induction false} RunKeeps(states: seq<System>, capacity: nat, n: nat)
    requires IsRun(states, capacity) && n < |states|
    ensures Invariant(states[n], capacity) && |states[n].shards| == |states[0].shards|
  {
    if n > 0 {
      hide Invariant, Next;
      RunKeeps(states, capacity, n - 1);
      assert Next(states[n - 1], states[n]);
      StepKeeps(states[n - 1], states[n], capacity);
    }
  }

  // --- Leaving ---------------------------------------------------------------------------------

  /** The worker's next step when every read returns the current value. */
  function FreshStep(s: Shard): WorkerStep {
    match s.pc
    case Top => ReadStop(s.stop)
    case EmptyCheck => CheckEmpty(|s.pushed|)
    case Pop(_) => TryPop(|s.pushed|)
    case Applying(_, _) => ApplyOne
    case Counting(_) => CountOne
    case Exited => ApplyOne
  }

  /** In every reachable state, a worker that has not left its loop can take a step. */
  lemma WorkerNeverStuck(states: seq<System>, capacity: nat, n: nat, i: nat)
    requires IsRun(states, capacity) && n < |states| && i < |states[n].shards| && !states[n].shards[i].pc.Exited?
    ensures exists w :: Allowed(states[n], Worker(i, w))
  {
    RunKeeps(states, capacity, n);
    var s := states[n].shards[i];
    assert ShardOk(s, capacity);
    assert Allowed(states[n], Worker(i, FreshStep(s)));
  }

  /** How many such steps a flagged worker is away from leaving. */
  function StepsLeft(s: Shard): nat
    requires s.popped <= |s.pushed|
  {
    var rest := |s.pushed| - s.popped;
    match s.pc
    case Top => 5 * rest + 3
    case EmptyCheck => 5 * rest + 2
    case Pop(draining) => if draining || rest > 0 then 5 * rest + 1 else 4
    case Applying(_, _) => 5 * rest + 5
    case Counting(_) => 5 * rest + 4
    case Exited => 0
  }

  /** The shard after `k` fresh steps of its worker. */
  ghost function Alone(s: Shard, k: nat): Shard
    decreases k
  {
    if k == 0 || !WorkerAllowed(s, FreshStep(s)) then s else Alone(WorkerAct(s, FreshStep(s)), k - 1)
  }

  lemma FreshStepAdvances(s: Shard, capacity: nat)
    requires ShardOk(s, capacity) && s.stop && !s.pc.Exited?
    ensures WorkerAllowed(s, FreshStep(s))
    ensures var t := WorkerAct(s, FreshStep(s));
            t.popped <= |t.pushed| && StepsLeft(t) < StepsLeft(s)
  {
    hide ShardRun, ServeShard;
  }

  lemma {:induction false} AloneLeaves(s: Shard, capacity: nat, k: nat)
    requires ShardOk(s, capacity) && s.stop && StepsLeft(s) <= k
    ensures Alone(s, k).pc.Exited?
    decreases k
  {
    if !s.pc.Exited? {
      hide ShardRun, ServeShard, ShardOk, WorkerAct, WorkerAllowed;
      FreshStepAdvances(s, capacity);
      WorkerKeeps(s, FreshStep(s), capacity);
      AloneLeaves(WorkerAct(s, FreshStep(s)), capacity, k - 1);
    }
  }

  /** Once its stop flag is set, a worker that reads current values leaves after at most five steps per message left
      in its inbox and five more; until it has left, nobody else changes its shard. */
  lemma FlaggedWorkerLeaves(states: seq<System>, capacity: nat, n: nat, i: nat)
    requires IsRun(states, capacity) && n < |states| && i < |states[n].shards| && states[n].shards[i].stop
    ensures var s := states[n].shards[i];
            s.popped <= |s.pushed| && Alone(s, 5 * (|s.pushed| - s.popped) + 5).pc.Exited?
    ensures !states[n].shards[i].pc.Exited? ==>
              forall step | Allowed(states[n], step) && !(step.Worker? && step.i == i) ::
                Act(states[n], step).shards[i] == states[n].shards[i]
  {
    RunKeeps(states, capacity, n);
    var s := states[n].shards[i];
    assert ShardOk(s, capacity);
    hide ShardRun, ServeShard, Alone, Routed, ShardIndex;
    AloneLeaves(s, capacity, 5 * (|s.pushed| - s.popped) + 5);
  }
}
