/** The sharded engine on its rings: gateway and workers take the atomic steps of `tryPush`, `empty` and `tryPop`
    (include/matching/ShardedEngine.h, include/infra/SPSCRingBuffer.h). Every run is, step by step, a run of the shard
    system with plain inboxes. */
module RingedShards {
  import opened Protocol
  import opened Ladders
  import P = RingProtocol
  import S = Sharded
  import Collect
  import Symbols
  import Refinement
  import R = Reference

  datatype Shard = Shard(
    ring: P.State<FeedMessage>, stop: bool, due: nat, pc: S.Pc, processed: nat, state: S.ShardState)

  datatype System = System(shards: seq<Shard>, phase: S.Phase, routed: seq<FeedMessage>, sealed: nat)

  datatype WorkerStep =
    | ReadStop(flag: bool) | CheckEmpty(k: nat) | Popping(step: P.Step<FeedMessage>) | ApplyOne | CountOne

  datatype Step =
    | Pushing(i: nat, push: P.Step<FeedMessage>)
    | BeginStop | FlagNext | Join | Restart
    | Worker(i: nat, step: WorkerStep)

  /** The gateway is not inside a call of `route`. */
  predicate AtRest(s: System) {
    forall i | 0 <= i < |s.shards| :: s.shards[i].ring.producer.Idle?
  }

  predicate OfProducer(step: P.Step<FeedMessage>) {
    step.LoadHead? || step.CheckTail? || step.WriteSlot? || step.StoreHead?
  }

  predicate OfPop(step: P.Step<FeedMessage>) {
    step.LoadTail? || step.CheckHead? || step.ReadSlot? || step.StoreTail?
  }

  ghost predicate WorkerAllowed(s: Shard, step: WorkerStep) {
    match step
    case ReadStop(flag) => s.pc.Top? && (flag ==> s.stop)
    case CheckEmpty(k) => s.pc.EmptyCheck? && P.Allowed(s.ring, P.Peek(k))
    case Popping(r) => s.pc.Pop? && OfPop(r) && P.Allowed(s.ring, r)
    case ApplyOne => s.pc.Applying? && S.BooksOk(s.state.engines)
    case CountOne => s.pc.Counting?
  }

  /** Reading the stop flag as set makes the worker see every message pushed before it was set. */
  ghost function WorkerAct(s: Shard, step: WorkerStep): Shard
    requires WorkerAllowed(s, step)
  {
    match step
    case ReadStop(flag) =>
      if flag then s.(ring := s.ring.(seenHead := |s.ring.pushed|), pc := S.EmptyCheck) else s.(pc := S.Pop(false))
    case CheckEmpty(k) => s.(ring := P.Act(s.ring, P.Peek(k)), pc := S.Pop(P.LooksEmpty(s.ring, k)))
    case Popping(r) =>
      var ring := P.Act(s.ring, r);
      if r.CheckHead? && ring.consumer.Waiting? then s.(ring := ring, pc := if s.pc.draining then S.Exited else S.Top)
      else if r.StoreTail? then s.(ring := ring, pc := S.Applying(s.ring.consumer.out, s.pc.draining))
      else s.(ring := ring)
    case ApplyOne => s.(state := S.ServeShard(s.state, s.pc.m), pc := S.Counting(s.pc.draining))
    case CountOne => s.(processed := s.processed + 1, pc := if s.pc.draining then S.Pop(true) else S.Top)
  }

  /** One gateway thread routes, stops and starts. */
  ghost predicate Allowed(s: System, step: Step) {
    match step
    case Pushing(i, r) =>
      && i < |s.shards| && OfProducer(r) && P.Allowed(s.shards[i].ring, r)
      && (r.LoadHead? ==> AtRest(s) && !s.phase.Stopping? && S.ShardIndex(r.value.symbolPacked, |s.shards|) == i)
    case BeginStop => s.phase.Open? && AtRest(s)
    case FlagNext => s.phase.Stopping? && s.phase.flagged < |s.shards|
    case Join =>
      && s.phase.Stopping? && s.phase.flagged == |s.shards|
      && forall i | 0 <= i < |s.shards| :: s.shards[i].pc.Exited?
    case Restart => s.phase.Stopped? && AtRest(s)
    case Worker(i, w) => i < |s.shards| && WorkerAllowed(s.shards[i], w)
  }

  ghost function Act(s: System, step: Step): System
    requires Allowed(s, step)
  {
    match step
    case Pushing(i, r) =>
      var shard := s.shards[i];
      s.(shards := s.shards[i := shard.(ring := P.Act(shard.ring, r))],
         routed := if r.StoreHead? then s.routed + [shard.ring.producer.value] else s.routed)
    case BeginStop => s.(phase := S.Stopping(0), sealed := |s.routed|)
    case FlagNext =>
      var i := s.phase.flagged;
      s.(shards := s.shards[i := s.shards[i].(stop := true, due := |s.shards[i].ring.pushed|)],
         phase := S.Stopping(i + 1))
    case Join => s.(phase := S.Stopped)
    case Restart =>
      s.(shards := seq(|s.shards|, i requires 0 <= i < |s.shards| => s.shards[i].(stop := false, pc := S.Top)),
         phase := S.Open)
    case Worker(i, w) => s.(shards := s.shards[i := WorkerAct(s.shards[i], w)])
  }

  ghost predicate Initial(s: System, capacity: nat) {
    && s.shards != [] && s.phase == S.Open && s.routed == [] && s.sealed == 0
    && forall i | 0 <= i < |s.shards| ::
         P.Initial(s.shards[i].ring) &&
         s.shards[i] == Shard(s.shards[i].ring, false, 0, S.Top, 0, S.ShardState(map[], capacity, []))
  }

  ghost predicate Next(s: System, s': System) {
    exists step :: Allowed(s, step) && s' == Act(s, step)
  }

  ghost predicate IsRun(states: seq<System>, capacity: nat) {
    states != [] && Initial(states[0], capacity) && forall i | 0 < i < |states| :: Next(states[i - 1], states[i])
  }

  // --- The plain inbox behind a ring -----------------------------------------------------------

  /** A pop has found an item and not yet given its slot back. */
  function InFlight(ring: P.State<FeedMessage>): nat {
    if ring.consumer.Ready? || ring.consumer.Holding? then 1 else 0
  }

  /** With an inbox, a pop happens in one step: when the head index has been read. */
  function PcOf(s: Shard): S.Pc {
    if s.pc.Pop? && InFlight(s.ring) == 1 && |s.ring.popped| < |s.ring.pushed|
    then S.Applying(s.ring.pushed[|s.ring.popped|], s.pc.draining)
    else s.pc
  }

  function View(s: Shard): S.Shard {
    S.Shard(s.ring.pushed, |s.ring.popped| + InFlight(s.ring), s.ring.seenHead, s.stop, s.due, PcOf(s), s.processed,
            s.state)
  }

  function Views(shards: seq<Shard>): seq<S.Shard> {
    seq(|shards|, i requires 0 <= i < |shards| => View(shards[i]))
  }

  function ViewOf(s: System): S.System {
    S.System(Views(s.shards), s.phase, s.routed, s.sealed)
  }

  ghost predicate ShardOk(s: Shard) {
    P.Invariant(s.ring) && (!s.ring.consumer.Waiting? ==> s.pc.Pop?)
  }

  /** A message on its way into a ring is pushed by a gateway that is not stopping, to the shard that owns it. */
  ghost predicate GatewayOk(s: System, i: nat)
    requires i < |s.shards|
  {
    var producer := s.shards[i].ring.producer;
    !producer.Idle? ==> !s.phase.Stopping? && S.ShardIndex(producer.value.symbolPacked, |s.shards|) == i
  }

  ghost predicate Ok(s: System) {
    && s.shards != []
    && (forall i {:trigger s.shards[i]} | 0 <= i < |s.shards| :: ShardOk(s.shards[i]))
    && (forall i {:trigger GatewayOk(s, i)} | 0 <= i < |s.shards| :: GatewayOk(s, i))
    && (s.phase.Stopped? ==> forall i | 0 <= i < |s.shards| :: s.shards[i].pc.Exited?)
  }

  lemma ViewsUpdate(shards: seq<Shard>, i: nat, x: Shard)
    requires i < |shards|
    ensures Views(shards[i := x]) == Views(shards)[i := View(x)]
  {
  }

  // --- Steps of a worker -----------------------------------------------------------------------

  /** One step of a worker on its ring is one step of a worker on the inbox, or none. */
  ghost predicate Matches(s: Shard, s': Shard) {
    View(s') == View(s) || exists w :: S.WorkerAllowed(View(s), w) && View(s') == S.WorkerAct(View(s), w)
  }

  lemma PopKeeps(s: Shard, r: P.Step<FeedMessage>)
    requires ShardOk(s) && WorkerAllowed(s, Popping(r))
    ensures ShardOk(WorkerAct(s, Popping(r)))
  {
    hide P.Invariant;
    P.ConsumerKeeps(s.ring, r);
  }

  lemma CheckHeadMatches(s: Shard, k: nat)
    requires ShardOk(s) && WorkerAllowed(s, Popping(P.CheckHead(k)))
    ensures Matches(s, WorkerAct(s, Popping(P.CheckHead(k))))
  {
    P.ReadsAreExact(s.ring, k);
    var s' := WorkerAct(s, Popping(P.CheckHead(k)));
    assert S.WorkerAllowed(View(s), S.TryPop(k));
    assert View(s') == S.WorkerAct(View(s), S.TryPop(k));
  }

  lemma PopMatches(s: Shard, r: P.Step<FeedMessage>)
    requires ShardOk(s) && WorkerAllowed(s, Popping(r))
    ensures Matches(s, WorkerAct(s, Popping(r)))
  {
    if r.CheckHead? {
      CheckHeadMatches(s, r.k);
    } else {
      hide P.Queued, P.History;
      assert View(WorkerAct(s, Popping(r))) == View(s);
    }
  }

  lemma CheckEmptyMatches(s: Shard, k: nat)
    requires ShardOk(s) && WorkerAllowed(s, CheckEmpty(k))
    ensures var s' := WorkerAct(s, CheckEmpty(k)); ShardOk(s') && Matches(s, s')
  {
    P.ConsumerKeeps(s.ring, P.Peek(k));
    P.ReadsAreExact(s.ring, k);
    var s' := WorkerAct(s, CheckEmpty(k));
    assert S.WorkerAllowed(View(s), S.CheckEmpty(k));
    assert View(s') == S.WorkerAct(View(s), S.CheckEmpty(k));
  }

  lemma ReadStopMatches(s: Shard, flag: bool)
    requires ShardOk(s) && WorkerAllowed(s, ReadStop(flag))
    ensures var s' := WorkerAct(s, ReadStop(flag)); ShardOk(s') && Matches(s, s')
  {
    P.ConsumerKeeps(s.ring, P.Peek(|s.ring.pushed|));
    hide P.Invariant;
    assert S.WorkerAllowed(View(s), S.ReadStop(flag));
    assert View(WorkerAct(s, ReadStop(flag))) == S.WorkerAct(View(s), S.ReadStop(flag));
  }

  lemma ServeMatches(s: Shard, step: WorkerStep)
    requires ShardOk(s) && WorkerAllowed(s, step) && (step.ApplyOne? || step.CountOne?)
    ensures var s' := WorkerAct(s, step); ShardOk(s') && Matches(s, s')
  {
    hide S.ServeShard, S.BooksOk, P.Invariant;
    var w := if step.ApplyOne? then S.ApplyOne else S.CountOne;
    assert S.WorkerAllowed(View(s), w);
    assert View(WorkerAct(s, step)) == S.WorkerAct(View(s), w);
  }

  lemma WorkerMatches(s: Shard, step: WorkerStep)
    requires ShardOk(s) && WorkerAllowed(s, step)
    ensures var s' := WorkerAct(s, step);
            ShardOk(s') && Matches(s, s') && s'.ring.producer == s.ring.producer && !s.pc.Exited?
  {
    hide ShardOk, Matches;
    match step {
      case Popping(r) =>
        PopKeeps(s, r);
        PopMatches(s, r);
      case CheckEmpty(k) => CheckEmptyMatches(s, k);
      case ReadStop(flag) => ReadStopMatches(s, flag);
      case ApplyOne => ServeMatches(s, step);
      case CountOne => ServeMatches(s, step);
    }
  }

  // --- Steps of the system ---------------------------------------------------------------------

  /** One step on the rings is one step on the inboxes, or none. */
  ghost predicate Simulated(s: System, s': System) {
    ViewOf(s') == ViewOf(s) || S.Next(ViewOf(s), ViewOf(s'))
  }

  lemma WorkerSimulated(s: System, i: nat, w: WorkerStep)
    requires Ok(s) && Allowed(s, Worker(i, w))
    ensures var s' := Act(s, Worker(i, w)); Ok(s') && Simulated(s, s')
  {
    hide ShardOk, WorkerAct, WorkerAllowed, View;
    var s' := Act(s, Worker(i, w));
    var shard := s.shards[i];
    WorkerMatches(shard, w);
    ViewsUpdate(s.shards, i, s'.shards[i]);
    forall j | 0 <= j < |s'.shards| ensures GatewayOk(s', j) {
      assert GatewayOk(s, j);
    }
    if View(s'.shards[i]) == View(shard) {
      assert Views(s'.shards) == Views(s.shards);
    } else {
      var x :| S.WorkerAllowed(View(shard), x) && View(s'.shards[i]) == S.WorkerAct(View(shard), x);
      assert S.Allowed(ViewOf(s), S.Worker(i, x));
      assert ViewOf(s') == S.Act(ViewOf(s), S.Worker(i, x));
    }
  }

  lemma PushSimulated(s: System, i: nat, r: P.Step<FeedMessage>)
    requires Ok(s) && Allowed(s, Pushing(i, r))
    ensures var s' := Act(s, Pushing(i, r)); Ok(s') && Simulated(s, s')
  {
    var s' := Act(s, Pushing(i, r));
    var shard, shard' := s.shards[i], s'.shards[i];
    assert ShardOk(shard) && GatewayOk(s, i);
    P.ProducerKeeps(shard.ring, r);
    PushView(shard, r);
    hide P.Invariant, View, S.ShardIndex, P.Act, P.Allowed;
    ViewsUpdate(s.shards, i, shard');
    forall j | 0 <= j < |s'.shards| ensures GatewayOk(s', j) {
      assert GatewayOk(s, j);
    }
    if r.StoreHead? {
      var m := shard.ring.producer.value;
      assert S.Allowed(ViewOf(s), S.Route(m));
      assert ViewOf(s') == S.Act(ViewOf(s), S.Route(m));
    } else {
      assert Views(s'.shards) == Views(s.shards);
    }
  }

  lemma PushView(s: Shard, r: P.Step<FeedMessage>)
    requires ShardOk(s) && OfProducer(r) && P.Allowed(s.ring, r)
    ensures var s' := s.(ring := P.Act(s.ring, r));
            && s'.ring.consumer == s.ring.consumer
            && (r.LoadHead? ==> s'.ring.producer.Loaded? && s'.ring.producer.value == r.value)
            && (!r.LoadHead? && !s'.ring.producer.Idle? ==>
                  !s.ring.producer.Idle? && s'.ring.producer.value == s.ring.producer.value)
            && (r.StoreHead? ==> s.ring.producer.Written?)
            && View(s') == if !r.StoreHead? then View(s)
                           else View(s).(pushed := View(s).pushed + [s.ring.producer.value])
  {
    hide P.Queued, P.History;
  }

  lemma PhaseSimulated(s: System, step: Step)
    requires Ok(s) && Allowed(s, step) && (step.BeginStop? || step.FlagNext? || step.Join? || step.Restart?)
    ensures Ok(Act(s, step)) && Simulated(s, Act(s, step))
  {
    hide P.Invariant, S.ShardIndex;
    var s' := Act(s, step);
    forall j | 0 <= j < |s'.shards| ensures GatewayOk(s', j) {
      assert GatewayOk(s, j);
    }
    var x := match step
      case BeginStop => S.BeginStop
      case FlagNext => S.FlagNext
      case Join => S.Join
      case _ => S.Restart;
    assert S.Allowed(ViewOf(s), x);
    assert Views(s'.shards) == S.Act(ViewOf(s), x).shards;
  }

  lemma StepSimulated(s: System, s': System)
    requires Ok(s) && Next(s, s')
    ensures Ok(s') && Simulated(s, s')
  {
    hide Ok, Simulated;
    var step :| Allowed(s, step) && s' == Act(s, step);
    match step {
      case Pushing(i, r) => PushSimulated(s, i, r);
      case Worker(i, w) => WorkerSimulated(s, i, w);
      case _ => PhaseSimulated(s, step);
    }
  }

  lemma InitialOk(s: System, capacity: nat)
    requires Initial(s, capacity)
    ensures Ok(s) && S.Initial(ViewOf(s), capacity)
  {
  }

  lemma PlainStep(plain: seq<S.System>, capacity: nat, s: S.System)
    requires S.IsRun(plain, capacity) && S.Next(plain[|plain| - 1], s)
    ensures S.IsRun(plain + [s], capacity)
  {
    hide S.Next, S.Initial;
    var more := plain + [s];
    forall i | 0 < i < |more| ensures S.Next(more[i - 1], more[i]) {
      if i < |plain| {
        assert S.Next(plain[i - 1], plain[i]);
      }
    }
  }

  /** Every run on rings leads where a run on inboxes leads. */
  lemma {:induction false} RunSimulated(states: seq<System>, capacity: nat, n: nat) returns (plain: seq<S.System>)
    requires IsRun(states, capacity) && n < |states|
    ensures Ok(states[n]) && S.IsRun(plain, capacity) && plain != [] && plain[|plain| - 1] == ViewOf(states[n])
  {
    hide Ok, Next, S.Next, S.Initial, Initial, ViewOf;
    if n == 0 {
      InitialOk(states[0], capacity);
      plain := [ViewOf(states[0])];
    } else {
      hide S.IsRun;
      plain := RunSimulated(states, capacity, n - 1);
      assert Next(states[n - 1], states[n]);
      StepSimulated(states[n - 1], states[n]);
      if ViewOf(states[n]) != ViewOf(states[n - 1]) {
        PlainStep(plain, capacity, ViewOf(states[n]));
        plain := plain + [ViewOf(states[n])];
      }
    }
  }

  // --- What the rings deliver ------------------------------------------------------------------

  function BeforeStop(s: System): seq<FeedMessage> {
    S.BeforeStop(ViewOf(s))
  }

  /** At every step of every run a ring holds at most its capacity, and hands out its messages in the order routed. */
  lemma RingsBounded(states: seq<System>, capacity: nat, n: nat, i: nat)
    requires IsRun(states, capacity) && n < |states| && i < |states[n].shards|
    ensures var s := states[n];
            var ring := s.shards[i].ring;
            && ring.popped <= ring.pushed && |ring.pushed| - |ring.popped| <= ring.capacity - 1
            && ring.pushed == S.Routed(s.routed, i, |s.shards|)
  {
    hide IsRun, S.Routed;
    var plain := RunSimulated(states, capacity, n);
    S.RunKeeps(plain, capacity, |plain| - 1);
    assert View(states[n].shards[i]) == ViewOf(states[n]).shards[i];
  }

  /** With every atomic step of every ring interleaved in any way: the fills collected after `stop` are those of one
      thread running one engine per symbol over the messages routed before, each of which has been processed once. */
  lemma RingedIsSequential(states: seq<System>, capacity: nat, n: nat, collected: seq<Fill>)
    requires IsRun(states, capacity) && n < |states| && states[n].phase.Stopped?
    requires Collect.Increasing(BeforeStop(states[n]))
    requires Collect.PoolsSuffice(capacity, BeforeStop(states[n]), |states[n].shards|)
    requires Collect.StableSorted(Collect.AllFills(Views(states[n].shards)), collected)
    ensures collected == Collect.MarketRun(BeforeStop(states[n])).fills
    ensures Collect.Processed(Views(states[n].shards)) == |BeforeStop(states[n])|
  {
    hide IsRun, S.IsRun, Ok, S.BeforeStop, S.ShardRun, S.Routed, View;
    hide Collect.Increasing, Collect.PoolsSuffice, Collect.StableSorted, Collect.MarketRun, Collect.AllFills,
         Collect.Processed;
    var plain := RunSimulated(states, capacity, n);
    Collect.StopFinishesAll(plain, capacity, |plain| - 1);
    Collect.CollectedIsSequential(plain, capacity, |plain| - 1, collected);
  }

  /** And for each symbol they are those of the reference matcher on that symbol's messages. */
  lemma RingedIsReference(states: seq<System>, capacity: nat, n: nat, collected: seq<Fill>, symbol: u64)
    requires IsRun(states, capacity) && n < |states| && states[n].phase.Stopped?
    requires Collect.Increasing(BeforeStop(states[n]))
    requires Collect.PoolsSuffice(capacity, BeforeStop(states[n]), |states[n].shards|)
    requires Collect.StableSorted(Collect.AllFills(Views(states[n].shards)), collected)
    ensures var own := Symbols.OfSymbol(BeforeStop(states[n]), symbol);
            Symbols.FillsOn(collected, symbol) == R.Run([], Refinement.Accepted(EMPTY_BOOK, own)).fills
  {
    hide IsRun, S.IsRun, Ok, S.BeforeStop, View, Symbols.FillsOn, Symbols.OfSymbol, R.Run, Refinement.Accepted;
    hide Collect.Increasing, Collect.PoolsSuffice, Collect.StableSorted, Collect.AllFills;
    var plain := RunSimulated(states, capacity, n);
    Symbols.CollectedIsReference(plain, capacity, |plain| - 1, collected, symbol);
  }

  // --- Every feed can be served ----------------------------------------------------------------

  ghost predicate EndsIn(states: seq<System>, s: System, capacity: nat) {
    IsRun(states, capacity) && states[|states| - 1] == s
  }

  ghost predicate Reachable(s: System, capacity: nat) {
    exists states :: EndsIn(states, s, capacity)
  }

  lemma Go(s: System, step: Step, capacity: nat) returns (s': System)
    requires Reachable(s, capacity) && Allowed(s, step)
    ensures Reachable(s', capacity) && s' == Act(s, step)
  {
    var states :| EndsIn(states, s, capacity);
    s' := Act(s, step);
    hide Act, Allowed, Initial;
    var more := states + [s'];
    forall i | 0 < i < |more| ensures Next(more[i - 1], more[i]) {
      if i < |states| {
        assert Next(states[i - 1], states[i]);
      }
    }
    assert EndsIn(more, s', capacity);
  }

  lemma RunNotEmpty(states: seq<System>, capacity: nat)
    requires IsRun(states, capacity)
    ensures states != []
  {
  }

  lemma ReachableOk(s: System, capacity: nat)
    requires Reachable(s, capacity)
    ensures Ok(s) && forall i | 0 <= i < |s.shards| :: S.BooksOk(s.shards[i].state.engines)
  {
    hide IsRun, S.IsRun, Ok;
    var states :| EndsIn(states, s, capacity);
    RunNotEmpty(states, capacity);
    var plain := RunSimulated(states, capacity, |states| - 1);
    S.RunKeeps(plain, capacity, |plain| - 1);
    hide S.ShardRun;
    forall i | 0 <= i < |s.shards| ensures S.BooksOk(s.shards[i].state.engines) {
      assert ViewOf(s).shards[i].state == s.shards[i].state;
      assert S.ShardOk(ViewOf(s).shards[i], capacity);
    }
  }

  /** One step of worker `i`. */
  lemma GoWorker(s: System, i: nat, w: WorkerStep, capacity: nat) returns (s': System)
    requires Reachable(s, capacity) && i < |s.shards| && WorkerAllowed(s.shards[i], w)
    ensures Reachable(s', capacity) && s' == s.(shards := s.shards[i := WorkerAct(s.shards[i], w)])
  {
    hide Reachable, WorkerAct, WorkerAllowed;
    s' := Go(s, Worker(i, w), capacity);
  }

  /** Nobody is inside a call, the worker is at the top of its loop, and its ring is empty. */
  predicate Quiet(s: Shard) {
    s.ring.producer.Idle? && s.ring.consumer.Waiting? && |s.ring.popped| == |s.ring.pushed| && s.pc.Top?
  }

  predicate AllQuiet(s: System) {
    s.phase.Open? && forall i | 0 <= i < |s.shards| :: Quiet(s.shards[i])
  }

  /** Route one message. */
  lemma RouteOne(s: System, m: FeedMessage, i: nat, capacity: nat) returns (s': System)
    requires Reachable(s, capacity) && s.shards != [] && AllQuiet(s) && i == S.ShardIndex(m.symbolPacked, |s.shards|)
    ensures Reachable(s', capacity) && s'.routed == s.routed + [m] && s'.phase == s.phase && s'.sealed == s.sealed
    ensures |s'.shards| == |s.shards| && forall j | 0 <= j < |s.shards| && j != i :: s'.shards[j] == s.shards[j]
    ensures var a, b := s.shards[i], s'.shards[i];
            && b == a.(ring := b.ring) && b.ring.producer.Idle? && b.ring.consumer.Waiting?
            && b.ring.pushed == a.ring.pushed + [m] && b.ring.popped == a.ring.popped
  {
    hide Reachable, S.ShardIndex;
    ReachableOk(s, capacity);
    var ring := s.shards[i].ring;
    assert ShardOk(s.shards[i]);
    P.IdlePushes(ring, m);
    assert |ring.pushed| - |ring.popped| != ring.capacity - 1;
    hide P.Invariant;
    var k := |ring.tails| - 1;
    s' := Go(s, Pushing(i, P.LoadHead(m)), capacity);
    s' := Go(s', Pushing(i, P.CheckTail(k)), capacity);
    s' := Go(s', Pushing(i, P.WriteSlot), capacity);
    s' := Go(s', Pushing(i, P.StoreHead), capacity);
  }

  /** Let the worker pop the one message in its ring. */
  lemma PopOne(s: System, i: nat, capacity: nat) returns (s': System)
    requires Reachable(s, capacity) && i < |s.shards| && s.shards[i].pc.Pop? && s.shards[i].ring.consumer.Waiting?
    requires |s.shards[i].ring.popped| < |s.shards[i].ring.pushed|
    ensures Reachable(s', capacity) && |s'.shards| == |s.shards| && s' == s.(shards := s.shards[i := s'.shards[i]])
    ensures var a, b := s.shards[i], s'.shards[i];
            && b == a.(ring := b.ring, pc := S.Applying(a.ring.pushed[|a.ring.popped|], a.pc.draining))
            && b.ring.consumer.Waiting? && b.ring.producer == a.ring.producer && b.ring.pushed == a.ring.pushed
            && b.ring.popped == a.ring.popped + [a.ring.pushed[|a.ring.popped|]]
  {
    hide Reachable, WorkerAct, WorkerAllowed, ShardOk;
    ReachableOk(s, capacity);
    var k, a1, a2, a3, b := PopShard(s.shards[i]);
    s' := GoWorker(s, i, Popping(P.LoadTail), capacity);
    s' := GoWorker(s', i, Popping(P.CheckHead(k)), capacity);
    s' := GoWorker(s', i, Popping(P.ReadSlot), capacity);
    s' := GoWorker(s', i, Popping(P.StoreTail), capacity);
  }

  /** The four steps of an undisturbed pop. */
  lemma PopShard(a: Shard) returns (k: nat, a1: Shard, a2: Shard, a3: Shard, b: Shard)
    requires ShardOk(a) && a.pc.Pop? && a.ring.consumer.Waiting? && |a.ring.popped| < |a.ring.pushed|
    ensures WorkerAllowed(a, Popping(P.LoadTail)) && a1 == WorkerAct(a, Popping(P.LoadTail))
    ensures WorkerAllowed(a1, Popping(P.CheckHead(k))) && a2 == WorkerAct(a1, Popping(P.CheckHead(k)))
    ensures WorkerAllowed(a2, Popping(P.ReadSlot)) && a3 == WorkerAct(a2, Popping(P.ReadSlot))
    ensures WorkerAllowed(a3, Popping(P.StoreTail)) && b == WorkerAct(a3, Popping(P.StoreTail))
    ensures b == a.(ring := b.ring, pc := S.Applying(a.ring.pushed[|a.ring.popped|], a.pc.draining))
    ensures b.ring.consumer.Waiting? && b.ring.producer == a.ring.producer && b.ring.pushed == a.ring.pushed
    ensures b.ring.popped == a.ring.popped + [a.ring.pushed[|a.ring.popped|]]
  {
    hide P.Invariant, P.Act, P.Allowed;
    var r1, r2, r3, r4;
    k, r1, r2, r3, r4 := PopRing(a.ring);
    a1, a2, a3 := a.(ring := r1), a.(ring := r2), a.(ring := r3);
    b := a.(ring := r4, pc := S.Applying(r3.consumer.out, a.pc.draining));
  }

  lemma PopRing(ring: P.State<FeedMessage>)
    returns (k: nat, r1: P.State<FeedMessage>, r2: P.State<FeedMessage>, r3: P.State<FeedMessage>,
             r4: P.State<FeedMessage>)
    requires P.Invariant(ring) && ring.consumer.Waiting? && |ring.popped| < |ring.pushed|
    ensures P.Allowed(ring, P.LoadTail) && r1 == P.Act(ring, P.LoadTail)
    ensures P.Allowed(r1, P.CheckHead(k)) && r2 == P.Act(r1, P.CheckHead(k)) && !r2.consumer.Waiting?
    ensures P.Allowed(r2, P.ReadSlot) && r3 == P.Act(r2, P.ReadSlot)
    ensures P.Allowed(r3, P.StoreTail) && r4 == P.Act(r3, P.StoreTail)
    ensures r3.consumer.Holding? && r3.consumer.out == ring.pushed[|ring.popped|]
    ensures r4.consumer.Waiting? && r4.producer == ring.producer && r4.pushed == ring.pushed
    ensures r4.popped == ring.popped + [ring.pushed[|ring.popped|]]
  {
    P.WaitingPops(ring);
    PoppedValue(ring);
    hide P.Invariant;
    k := |ring.heads| - 1;
    r1 := P.Act(ring, P.LoadTail);
    r2 := P.Act(r1, P.CheckHead(k));
    r3 := P.Act(r2, P.ReadSlot);
    r4 := P.Act(r3, P.StoreTail);
  }

  /** What an undisturbed pop reads is what it hands out. */
  lemma PoppedValue(ring: P.State<FeedMessage>)
    requires P.Invariant(ring) && ring.consumer.Waiting? && |ring.popped| < |ring.pushed| && P.Pops(ring)
    ensures var s2 := P.Act(P.Act(ring, P.LoadTail), P.CheckHead(|ring.heads| - 1));
            P.Act(s2, P.ReadSlot).consumer.out == ring.pushed[|ring.popped|]
  {
    var s2 := P.Act(P.Act(ring, P.LoadTail), P.CheckHead(|ring.heads| - 1));
    var s4 := P.Act(P.Act(s2, P.ReadSlot), P.StoreTail);
    assert s4.popped[|ring.popped|] == ring.pushed[|ring.popped|];
  }

  /** Route one message and let its worker serve it. */
  lemma ServeOne(s: System, m: FeedMessage, capacity: nat) returns (s': System)
    requires Reachable(s, capacity) && s.shards != [] && AllQuiet(s)
    ensures Reachable(s', capacity) && AllQuiet(s') && s'.routed == s.routed + [m] && |s'.shards| == |s.shards|
  {
    hide Reachable, S.ShardIndex, S.ServeShard, S.BooksOk;
    var i := S.ShardIndex(m.symbolPacked, |s.shards|);
    s' := RouteOne(s, m, i, capacity);
    s' := GoWorker(s', i, ReadStop(false), capacity);
    s' := PopOne(s', i, capacity);
    ReachableOk(s', capacity);
    s' := GoWorker(s', i, ApplyOne, capacity);
    s' := GoWorker(s', i, CountOne, capacity);
  }

  lemma {:induction false} ServeAllOf(s: System, msgs: seq<FeedMessage>, capacity: nat) returns (s': System)
    requires Reachable(s, capacity) && s.shards != [] && AllQuiet(s)
    ensures Reachable(s', capacity) && AllQuiet(s') && s'.routed == s.routed + msgs && |s'.shards| == |s.shards|
  {
    hide Reachable, AllQuiet;
    if msgs == [] {
      s' := s;
      assert s.routed + [] == s.routed;
    } else {
      s' := ServeAllOf(s, msgs[..|msgs| - 1], capacity);
      s' := ServeOne(s', msgs[|msgs| - 1], capacity);
      assert msgs == msgs[..|msgs| - 1] + [msgs[|msgs| - 1]];
    }
  }

  /** Set the remaining stop flags. */
  lemma FlagAll(s: System, capacity: nat) returns (s': System)
    requires Reachable(s, capacity) && s.phase.Stopping? && s.phase.flagged <= |s.shards|
    requires forall i | 0 <= i < |s.shards| :: Quiet(s.shards[i])
    requires forall i | 0 <= i < s.phase.flagged :: s.shards[i].stop
    ensures Reachable(s', capacity) && s'.phase == S.Stopping(|s.shards|) && |s'.shards| == |s.shards|
    ensures s'.routed == s.routed && s'.sealed == s.sealed
    ensures forall i | 0 <= i < |s.shards| :: Quiet(s'.shards[i]) && s'.shards[i].stop
    decreases |s.shards| - s.phase.flagged
  {
    hide Reachable;
    if s.phase.flagged == |s.shards| {
      s' := s;
    } else {
      s' := Go(s, FlagNext, capacity);
      s' := FlagAll(s', capacity);
    }
  }

  /** A flagged worker with an empty ring leaves. */
  lemma LeaveOne(s: System, i: nat, capacity: nat) returns (s': System)
    requires Reachable(s, capacity) && i < |s.shards| && Quiet(s.shards[i]) && s.shards[i].stop
    ensures Reachable(s', capacity) && |s'.shards| == |s.shards| && s' == s.(shards := s.shards[i := s'.shards[i]])
    ensures s'.shards[i].pc.Exited?
  {
    hide Reachable;
    s' := GoWorker(s, i, ReadStop(true), capacity);
    ReachableOk(s', capacity);
    var ring := s'.shards[i].ring;
    var k := |ring.heads| - 1;
    assert ShardOk(s'.shards[i]);
    P.ReadsAreExact(ring, k);
    assert P.Allowed(ring, P.Peek(k)) && P.LooksEmpty(ring, k);
    hide P.Invariant;
    s' := GoWorker(s', i, CheckEmpty(k), capacity);
    s' := LeaveEmpty(s', i, capacity);
  }

  lemma LeaveEmpty(s: System, i: nat, capacity: nat) returns (s': System)
    requires Reachable(s, capacity) && i < |s.shards| && s.shards[i].pc == S.Pop(true)
    requires var ring := s.shards[i].ring; ring.consumer.Waiting? && |ring.popped| == |ring.pushed|
    ensures Reachable(s', capacity) && |s'.shards| == |s.shards| && s' == s.(shards := s.shards[i := s'.shards[i]])
    ensures s'.shards[i].pc.Exited?
  {
    hide Reachable;
    ReachableOk(s, capacity);
    assert ShardOk(s.shards[i]);
    P.WaitingPops(s.shards[i].ring);
    hide P.Invariant;
    s' := GoWorker(s, i, Popping(P.LoadTail), capacity);
    s' := GoWorker(s', i, Popping(P.CheckHead(|s.shards[i].ring.heads| - 1)), capacity);
  }

  lemma LeaveAll(s: System, n: nat, capacity: nat) returns (s': System)
    requires Reachable(s, capacity) && n <= |s.shards|
    requires forall i | 0 <= i < n :: s.shards[i].pc.Exited?
    requires forall i | n <= i < |s.shards| :: Quiet(s.shards[i]) && s.shards[i].stop
    ensures Reachable(s', capacity) && s' == s.(shards := s'.shards) && |s'.shards| == |s.shards|
    ensures forall i | 0 <= i < |s'.shards| :: s'.shards[i].pc.Exited?
    decreases |s.shards| - n
  {
    hide Reachable, Quiet;
    if n == |s.shards| {
      s' := s;
    } else {
      s' := LeaveOne(s, n, capacity);
      s' := LeaveAll(s', n + 1, capacity);
    }
  }

  /** From every initial state, for every sequence of messages, some run on the rings routes exactly these messages
      and then stops. */
  lemma EveryFeedCanBeServed(s: System, msgs: seq<FeedMessage>, capacity: nat) returns (s': System)
    requires Initial(s, capacity)
    ensures Reachable(s', capacity) && s'.phase.Stopped? && BeforeStop(s') == msgs && |s'.shards| == |s.shards|
  {
    assert EndsIn([s], s, capacity);
    assert AllQuiet(s);
    hide Reachable, Initial, EndsIn;
    s' := ServeAllOf(s, msgs, capacity);
    assert s'.routed == msgs;
    s' := StopNow(s', capacity);
  }

  lemma StopNow(s: System, capacity: nat) returns (s': System)
    requires Reachable(s, capacity) && s.shards != [] && AllQuiet(s)
    ensures Reachable(s', capacity) && s'.phase.Stopped? && BeforeStop(s') == s.routed && |s'.shards| == |s.shards|
  {
    hide Reachable;
    s' := Go(s, BeginStop, capacity);
    s' := FlagAll(s', capacity);
    s' := LeaveAll(s', 0, capacity);
    s' := Go(s', Join, capacity);
    assert s.routed[..|s.routed|] == s.routed;
  }

  /** Any number of shards with rings of any size from two slots up can be started. */
  lemma NewSystem(rings: seq<seq<FeedMessage>>, capacity: nat) returns (s: System)
    requires rings != [] && forall i | 0 <= i < |rings| :: |rings[i]| >= 2
    ensures Initial(s, capacity) && |s.shards| == |rings|
    ensures forall i | 0 <= i < |rings| :: s.shards[i].ring.slots == rings[i]
  {
    var empty := S.ShardState(map[], capacity, []);
    var shards: seq<Shard> := [];
    for i := 0 to |rings|
      invariant |shards| == i
      invariant forall j | 0 <= j < i :: P.Initial(shards[j].ring) && shards[j].ring.slots == rings[j]
      invariant forall j | 0 <= j < i :: shards[j] == Shard(shards[j].ring, false, 0, S.Top, 0, empty)
    {
      var ring := P.NewRing(rings[i]);
      shards := shards + [Shard(ring, false, 0, S.Top, 0, empty)];
    }
    s := System(shards, S.Open, [], 0);
  }
}
