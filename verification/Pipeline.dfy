/** The durability pipeline as a protocol: a publisher, stop and start calls, and a worker that journals each batch
    before it stores it (include/journal/DurabilityPipeline.h). */
module Pipeline {
  import opened Protocol
  import T = TradeStores

  /** Where the worker is. `last` marks the flush after the main loop. */
  datatype Worker =
    | Opening                          // opening journal and store
    | Top                              // about to read the stop flag
    | EmptyCheck
    | Popping
    | Appending(done: nat, last: bool) // `done` records of the batch are journalled
    | Syncing(last: bool)
    | Inserting(last: bool)
    | Counting(last: bool)
    | FinalSync
    | Done
    | Failed

  datatype Publisher = Idle | Checked(fill: Fill)

  /** `pushed` are the fills published through the ring, `seen` how far the worker's view of it reaches. `stop` is the
      flag, `called` whether a stop call has set it. `journal` is what the pipeline has added to the journal and
      `room` what that can take in all. `base` is what the store held at first, `store` what the worker's store holds
      in memory, and `disk` its file. */
  datatype State = State(
    pushed: seq<Fill>, popped: nat, seen: nat, stop: bool, called: bool, publisher: Publisher, worker: Worker,
    batch: seq<Fill>, batchSize: nat, room: nat, journal: seq<Fill>,
    base: seq<Fill>, store: seq<Fill>, disk: T.File, persisted: nat)

  datatype Restarts = Never | AfterSuccess | Always

  /** How a pipeline is used: whether one thread makes all calls, when `start` is called again after a `stop`, and
      whether a rewrite of the store file may report success without reaching the disk in full. */
  datatype Usage = Usage(oneThread: bool, restarts: Restarts, shortWrites: bool)

  datatype Step =
    | CheckStop(fill: Fill) | Push
    | Stop | Restart
    | Open(ok: bool) | ReadStop(flag: bool) | CheckEmpty(k: nat) | TryPop(k: nat)
    | AppendOne | Sync(ok: bool) | Insert(write: T.Write) | Count

  predicate Allowed(s: State, step: Step, u: Usage) {
    match step
    // the publisher reads the flag as clear: on the thread that called stop, only before that call
    case CheckStop(_) => s.publisher.Idle? && (u.oneThread ==> !s.called)
    case Push => s.publisher.Checked?
    case Stop => !s.called && (u.oneThread ==> s.publisher.Idle?)
    // a stop call has joined the worker, and start is called
    case Restart =>
      && s.called && (u.oneThread ==> s.publisher.Idle?)
      && ((s.worker.Done? && !u.restarts.Never?) || (s.worker.Failed? && u.restarts.Always?))
    case Open(ok) => s.worker.Opening? && (ok ==> T.Read(s.disk).Ok?)
    case ReadStop(flag) => s.worker.Top? && (flag ==> s.stop)
    case CheckEmpty(k) => s.worker.EmptyCheck? && s.seen <= k <= |s.pushed|
    case TryPop(k) => s.worker.Popping? && s.seen <= k <= |s.pushed|
    case AppendOne => s.worker.Appending?
    case Sync(_) => s.worker.Syncing? || s.worker.FinalSync?
    case Insert(write) =>
      s.worker.Inserting? && (T.Reports(write) && !u.shortWrites ==> T.ReachedAll(write, s.store + s.batch))
    case Count => s.worker.Counting?
  }

  function Fail(s: State): State {
    s.(worker := Failed, stop := true)
  }

  /** After the main loop: flush what is left, then sync once more. */
  function AfterLoop(s: State): State {
    s.(worker := if s.batch == [] then FinalSync else Appending(0, true))
  }

  function Act(s: State, step: Step, u: Usage): State
    requires Allowed(s, step, u)
  {
    match step
    case CheckStop(fill) => s.(publisher := Checked(fill))
    case Push => s.(pushed := s.pushed + [s.publisher.fill], publisher := Idle)
    case Stop => s.(stop := true, called := true)
    // the flag stays set and the ring keeps its fills; the batch was local to the worker that has left
    case Restart => s.(batch := [], worker := Opening)
    case Open(ok) => if ok then s.(store := T.Read(s.disk).value, worker := Top) else Fail(s)
    case ReadStop(flag) =>
      // the flag read as set makes everything visible that its setter did before
      if !flag then s.(worker := Popping)
      else if u.oneThread then s.(seen := |s.pushed|, worker := EmptyCheck)
      else s.(worker := EmptyCheck)
    case CheckEmpty(k) => if k > s.popped then s.(seen := k, worker := Popping) else AfterLoop(s.(seen := k))
    case TryPop(k) =>
      if k > s.popped then
        var batch := s.batch + [s.pushed[s.popped]];
        var next := if |batch| >= s.batchSize then Appending(0, false) else Top;
        s.(seen := k, popped := s.popped + 1, batch := batch, worker := next)
      else
        s.(seen := k, worker := if s.batch != [] then Appending(0, false) else Top)
    case AppendOne =>
      var i := s.worker.done;
      if i >= |s.batch| then s.(worker := Syncing(s.worker.last))
      else if |s.journal| >= s.room then Fail(s)
      else s.(journal := s.journal + [s.batch[i]], worker := Appending(i + 1, s.worker.last))
    case Sync(ok) =>
      if !ok then Fail(s)
      else if s.worker.FinalSync? then s.(worker := Done)
      else s.(worker := Inserting(s.worker.last))
    case Insert(write) =>
      var staged := s.store + s.batch;
      var rewritten := s.(disk := T.FileAfter(s.disk, staged, write));
      if T.Reports(write) then rewritten.(store := staged, worker := Counting(s.worker.last)) else Fail(rewritten)
    case Count =>
      s.(persisted := s.persisted + |s.batch|, batch := [], worker := if s.worker.last then FinalSync else Top)
  }

  predicate Initial(s: State) {
    && s.pushed == [] && s.popped == 0 && s.seen == 0 && !s.stop && !s.called && s.publisher.Idle? && s.worker.Opening?
    && s.batch == [] && s.batchSize >= 1 && s.journal == [] && s.persisted == 0
    && s.store == s.base && (T.Read(s.disk).Ok? ==> T.Read(s.disk).value == s.base)
  }

  ghost predicate Next(s: State, s': State, u: Usage) {
    exists step :: Allowed(s, step, u) && s' == Act(s, step, u)
  }

  ghost predicate IsRun(states: seq<State>, u: Usage) {
    states != [] && Initial(states[0]) && forall i | 0 < i < |states| :: Next(states[i - 1], states[i], u)
  }

  // --- Sublists --------------------------------------------------------------------------------

  /** `s` is `t` with some of its fills left out. */
  ghost predicate Sublist(s: seq<Fill>, t: seq<Fill>) {
    if s == [] then true
    else if t == [] then false
    else (s[0] == t[0] && Sublist(s[1..], t[1..])) || Sublist(s, t[1..])
  }

  lemma NothingIsSublist(t: seq<Fill>)
    ensures Sublist([], t)
  {
  }

  lemma {:induction false} SublistSelf(s: seq<Fill>)
    ensures Sublist(s, s)
  {
    if s != [] {
      SublistSelf(s[1..]);
    }
  }

  lemma {:induction false} SublistLonger(s: seq<Fill>, t: seq<Fill>, more: seq<Fill>)
    requires Sublist(s, t)
    ensures Sublist(s, t + more)
  {
    if s != [] {
      assert (t + more)[1..] == t[1..] + more;
      if s[0] == t[0] && Sublist(s[1..], t[1..]) {
        SublistLonger(s[1..], t[1..], more);
      } else {
        SublistLonger(s, t[1..], more);
      }
    }
  }

  lemma {:induction false} SublistBoth(s: seq<Fill>, t: seq<Fill>, more: seq<Fill>)
    requires Sublist(s, t)
    ensures Sublist(s + more, t + more)
  {
    if t == [] {
      assert s + more == more == t + more;
      SublistSelf(more);
    } else {
      assert (t + more)[1..] == t[1..] + more;
      if s != [] && s[0] == t[0] && Sublist(s[1..], t[1..]) {
        assert (s + more)[1..] == s[1..] + more;
        SublistBoth(s[1..], t[1..], more);
      } else {
        SublistBoth(s, t[1..], more);
      }
    }
  }

  // --- Invariant -------------------------------------------------------------------------------

  /** How many popped fills should be in the journal, and in the store. */
  function Journalled(s: State): int {
    match s.worker
    case Appending(i, _) => s.popped - |s.batch| + i
    case Syncing(_) => s.popped
    case Inserting(_) => s.popped
    case Counting(_) => s.popped
    case Failed => s.popped
    case _ => s.popped - |s.batch|
  }

  function Stored(s: State): int {
    if s.worker.Counting? || s.worker.Failed? then s.popped else s.popped - |s.batch|
  }

  /** The worker has left its main loop for good. */
  predicate Leaving(w: Worker) {
    match w
    case Appending(_, last) => last
    case Syncing(last) => last
    case Inserting(last) => last
    case Counting(last) => last
    case FinalSync => true
    case Done => true
    case _ => false
  }

  ghost predicate BatchOk(s: State) {
    && |s.batch| <= s.popped <= s.seen <= |s.pushed|
    && s.batch == s.pushed[s.popped - |s.batch|..s.popped]
    && (s.worker.Appending? ==> s.worker.done <= |s.batch| && s.batch != [])
    && (s.worker.Opening? || s.worker.FinalSync? || s.worker.Done? ==> s.batch == [])
  }

  /** The journal has run full and fills that did not fit are gone; it takes no more. */
  predicate Short(s: State) {
    && s.room <= |s.journal| <= Stored(s)
    && !s.worker.Syncing? && !s.worker.Inserting? && !s.worker.Counting?
    && (s.worker.Appending? ==> s.worker.done == 0)
  }

  ghost predicate JournalOk(s: State) {
    s.journal <= s.pushed && (|s.journal| == Journalled(s) || Short(s))
  }

  /** The journalled fills that may have been stored. */
  function Settled(s: State): seq<Fill>
    requires 0 <= Stored(s)
  {
    if |s.journal| < Stored(s) then s.journal else s.journal[..Stored(s)]
  }

  /** The store, in memory and on the disk if that can be read, holds nothing but old and journalled fills, in order. */
  ghost predicate StoreOk(s: State)
    requires 0 <= Stored(s)
  {
    && Sublist(s.store, s.base + Settled(s))
    && (T.Read(s.disk).Ok? ==> Sublist(T.Read(s.disk).value, s.base + Settled(s)))
  }

  ghost predicate InStep(s: State) {
    BatchOk(s) && JournalOk(s) && StoreOk(s)
  }

  lemma FailKeeps(s: State)
    requires InStep(s) && !s.worker.Failed?
    requires Journalled(s) == s.popped || s.room <= |s.journal|
    requires |s.journal| <= s.popped
    ensures InStep(Fail(s))
  {
    hide Sublist;
    var s' := Fail(s);
    assert Settled(s') == Settled(s) + s.journal[|Settled(s)|..];
    MoreSettled(s, s', s.journal[|Settled(s)|..]);
  }

  lemma MoreSettled(s: State, s': State, more: seq<Fill>)
    requires 0 <= Stored(s) && StoreOk(s) && 0 <= Stored(s')
    requires s'.base == s.base && s'.store == s.store && s'.disk == s.disk && Settled(s') == Settled(s) + more
    ensures StoreOk(s')
  {
    hide Sublist, Settled;
    assert s.base + (Settled(s) + more) == s.base + Settled(s) + more;
    SublistLonger(s.store, s.base + Settled(s), more);
    if T.Read(s.disk).Ok? {
      SublistLonger(T.Read(s.disk).value, s.base + Settled(s), more);
    }
  }

  lemma SameStore(s: State, s': State)
    requires 0 <= Stored(s) && StoreOk(s) && Stored(s') == Stored(s)
    requires s'.base == s.base && s'.store == s.store && s'.disk == s.disk && s'.journal == s.journal
    ensures StoreOk(s')
  {
    hide Sublist;
  }

  /** Steps of the publisher, stop and restart. */
  lemma CallKeeps(s: State, step: Step, u: Usage)
    requires InStep(s) && Allowed(s, step, u) && (step.CheckStop? || step.Push? || step.Stop? || step.Restart?)
    ensures InStep(Act(s, step, u))
  {
    hide StoreOk;
    var s' := Act(s, step, u);
    assert s'.pushed[s'.popped - |s'.batch|..s'.popped] == s.pushed[s'.popped - |s'.batch|..s'.popped];
    SameStore(s, s');
  }

  /** A step that only moves the worker, and its view of the ring, keeps everything in step. */
  lemma ViewKeeps(s: State, seen: nat, worker: Worker)
    requires InStep(s) && s.seen <= seen <= |s.pushed|
    requires Journalled(s.(worker := worker)) == Journalled(s) && Stored(s.(worker := worker)) == Stored(s)
    requires worker.Appending? ==> worker.done <= |s.batch| && s.batch != []
    requires worker.Opening? || worker.FinalSync? || worker.Done? ==> s.batch == []
    requires Short(s) ==> Short(s.(worker := worker))
    ensures InStep(s.(seen := seen, worker := worker))
  {
    hide StoreOk;
    SameStore(s, s.(seen := seen, worker := worker));
  }

  lemma OpenKeeps(s: State, step: Step, u: Usage)
    requires InStep(s) && Allowed(s, step, u) && step.Open?
    ensures InStep(Act(s, step, u))
  {
    hide Sublist;
    if !step.ok {
      FailKeeps(s);
    }
  }

  lemma LoopKeeps(s: State, step: Step, u: Usage)
    requires InStep(s) && Allowed(s, step, u) && (step.ReadStop? || step.CheckEmpty?)
    ensures InStep(Act(s, step, u))
  {
    hide StoreOk, JournalOk;
    var s' := Act(s, step, u);
    ViewKeeps(s, s'.seen, s'.worker);
  }

  lemma PopKeeps(s: State, step: Step, u: Usage)
    requires InStep(s) && Allowed(s, step, u) && step.TryPop?
    ensures InStep(Act(s, step, u))
  {
    hide InStep;
    var s' := Act(s, step, u);
    if step.k > s.popped {
      PoppedInStep(s, step.k, s'.worker);
    } else {
      ViewKeeps(s, s'.seen, s'.worker);
    }
  }

  lemma PoppedInStep(s: State, seen: nat, worker: Worker)
    requires InStep(s) && s.worker.Popping? && s.popped < seen <= |s.pushed| && s.seen <= seen
    requires worker == Top || worker == Appending(0, false)
    ensures InStep(s.(seen := seen, popped := s.popped + 1, batch := s.batch + [s.pushed[s.popped]], worker := worker))
  {
    hide StoreOk;
    var s' := s.(seen := seen, popped := s.popped + 1, batch := s.batch + [s.pushed[s.popped]], worker := worker);
    var from := s.popped - |s.batch|;
    assert s.pushed[from..s.popped + 1] == s.pushed[from..s.popped] + [s.pushed[s.popped]];
    assert Stored(s') == Stored(s) && Journalled(s') == Journalled(s);
    SameStore(s, s');
  }

  lemma AppendKeeps(s: State, step: Step, u: Usage)
    requires InStep(s) && Allowed(s, step, u) && step.AppendOne?
    ensures InStep(Act(s, step, u))
  {
    hide StoreOk;
    var s' := Act(s, step, u);
    var i := s.worker.done;
    if i >= |s.batch| {
      ViewKeeps(s, s.seen, s'.worker);
    } else if |s.journal| >= s.room {
      FailKeeps(s);
    } else {
      RecordInStep(s);
    }
  }

  lemma RecordInStep(s: State)
    requires InStep(s) && s.worker.Appending? && s.worker.done < |s.batch| && |s.journal| < s.room
    ensures var i := s.worker.done;
            InStep(s.(journal := s.journal + [s.batch[i]], worker := Appending(i + 1, s.worker.last)))
  {
    hide StoreOk;
    var i := s.worker.done;
    var s' := s.(journal := s.journal + [s.batch[i]], worker := Appending(i + 1, s.worker.last));
    var at := s.popped - |s.batch| + i;
    assert s.batch[i] == s.pushed[at] && s.journal == s.pushed[..at];
    assert s'.journal == s.pushed[..at + 1];
    assert Settled(s') == Settled(s) + [];
    MoreSettled(s, s', []);
  }

  lemma SyncKeeps(s: State, step: Step, u: Usage)
    requires InStep(s) && Allowed(s, step, u) && step.Sync?
    ensures InStep(Act(s, step, u))
  {
    hide StoreOk;
    if step.ok {
      ViewKeeps(s, s.seen, Act(s, step, u).worker);
    } else {
      FailKeeps(s);
    }
  }

  lemma InsertKeeps(s: State, step: Step, u: Usage)
    requires InStep(s) && Allowed(s, step, u) && step.Insert?
    ensures InStep(Act(s, step, u))
  {
    hide StoreOk, Settled, T.FileAfter, T.Read;
    var s' := Act(s, step, u);
    BatchSettles(s, s');
    InsertStores(s, s', step.write);
  }

  lemma BatchSettles(s: State, s': State)
    requires BatchOk(s) && JournalOk(s) && s.worker.Inserting?
    requires s'.journal == s.journal && s'.popped == s.popped && (s'.worker.Counting? || s'.worker.Failed?)
    ensures Settled(s') == Settled(s) + s.batch
  {
  }

  lemma InsertStores(s: State, s': State, write: T.Write)
    requires 0 <= Stored(s) && StoreOk(s) && 0 <= Stored(s') && s'.base == s.base
    requires s'.disk == T.FileAfter(s.disk, s.store + s.batch, write) && Settled(s') == Settled(s) + s.batch
    requires s'.store == s.store || s'.store == s.store + s.batch
    ensures StoreOk(s')
  {
    hide Sublist, Settled, T.FileAfter, T.Read;
    T.ReadAfterWrite(s.disk, s.store + s.batch, write);
    assert s.base + (Settled(s) + s.batch) == s.base + Settled(s) + s.batch;
    SublistLonger(s.store, s.base + Settled(s), s.batch);
    SublistBoth(s.store, s.base + Settled(s), s.batch);
    if T.Read(s.disk).Ok? {
      SublistLonger(T.Read(s.disk).value, s.base + Settled(s), s.batch);
    }
    NothingIsSublist(s.base + Settled(s'));
  }

  lemma CountKeeps(s: State, step: Step, u: Usage)
    requires InStep(s) && Allowed(s, step, u) && step.Count?
    ensures InStep(Act(s, step, u))
  {
    hide StoreOk;
    SameStore(s, Act(s, step, u));
  }

  lemma StepKeeps(s: State, step: Step, u: Usage)
    requires InStep(s) && Allowed(s, step, u)
    ensures InStep(Act(s, step, u))
  {
    hide InStep, Act, Allowed;
    match step {
      case CheckStop(_) => CallKeeps(s, step, u);
      case Push => CallKeeps(s, step, u);
      case Stop => CallKeeps(s, step, u);
      case Restart => CallKeeps(s, step, u);
      case Open(_) => OpenKeeps(s, step, u);
      case ReadStop(_) => LoopKeeps(s, step, u);
      case CheckEmpty(_) => LoopKeeps(s, step, u);
      case TryPop(_) => PopKeeps(s, step, u);
      case AppendOne => AppendKeeps(s, step, u);
      case Sync(_) => SyncKeeps(s, step, u);
      case Insert(_) => InsertKeeps(s, step, u);
      case Count => CountKeeps(s, step, u);
    }
  }

  lemma InitialOk(s: State)
    requires Initial(s)
    ensures InStep(s)
  {
    hide Sublist;
    assert s.base + Settled(s) == s.base;
    SublistSelf(s.base);
  }

  lemma {:induction false} RunKeeps(states: seq<State>, u: Usage, n: nat)
    requires IsRun(states, u) && n < |states|
    ensures InStep(states[n])
  {
    hide InStep, Act, Allowed, Initial;
    if n == 0 {
      InitialOk(states[0]);
    } else {
      RunKeeps(states, u, n - 1);
      var s, s' := states[n - 1], states[n];
      assert Next(s, s', u);
      var step :| Allowed(s, step, u) && s' == Act(s, step, u);
      StepKeeps(s, step, u);
    }
  }

  /** At every step of every run, with any failure and any restart: the journal is a prefix of what was published, and
      the store holds nothing but what it held at first and what is journalled, in order. */
  lemma StoreHoldsJournalled(states: seq<State>, u: Usage, n: nat)
    requires IsRun(states, u) && n < |states|
    ensures var s := states[n]; s.journal <= s.pushed && Sublist(s.store, s.base + s.journal)
  {
    hide IsRun, Sublist;
    RunKeeps(states, u, n);
    var s := states[n];
    var more := s.journal[|Settled(s)|..];
    assert s.base + s.journal == s.base + Settled(s) + more;
    SublistLonger(s.store, s.base + Settled(s), more);
  }

  /** Once the worker has left, with or without an error, the stop flag is set, so that a publisher that reads it is
      refused. */
  lemma {:induction false} LeftMeansStopped(states: seq<State>, u: Usage, n: nat)
    requires IsRun(states, u) && n < |states|
    ensures var s := states[n]; s.worker.Failed? || s.worker.EmptyCheck? || Leaving(s.worker) ==> s.stop
    ensures states[n].called ==> states[n].stop
  {
    if n > 0 {
      hide Act, Allowed, Initial;
      LeftMeansStopped(states, u, n - 1);
      assert Next(states[n - 1], states[n], u);
      var step :| Allowed(states[n - 1], step, u) && states[n] == Act(states[n - 1], step, u);
      StepStops(states[n - 1], step, u);
    }
  }

  lemma StepStops(s: State, step: Step, u: Usage)
    requires Allowed(s, step, u) && (s.called ==> s.stop)
    requires s.worker.Failed? || s.worker.EmptyCheck? || Leaving(s.worker) ==> s.stop
    ensures var s' := Act(s, step, u);
            && (s'.worker.Failed? || s'.worker.EmptyCheck? || Leaving(s'.worker) ==> s'.stop)
            && (s'.called ==> s'.stop)
  {
    hide T.Read, T.FileAfter;
  }

  // --- Orderly use -----------------------------------------------------------------------------

  /** The pipeline is not started again, or only after error-free runs and with writes that reach the disk. */
  predicate Orderly(u: Usage) {
    u.restarts.Never? || (u.restarts.AfterSuccess? && !u.shortWrites)
  }

  /** Stored fills are a prefix of journalled ones, which are a prefix of the published ones, and no more is reported
      persisted than is stored. */
  ghost predicate Chain(s: State) {
    && s.journal <= s.pushed && s.store <= s.base + s.journal
    && |s.base| <= |s.store| && s.persisted <= |s.store| - |s.base|
  }

  ghost predicate Strict(s: State, u: Usage) {
    if s.worker.Failed? then Chain(s)
    else
      && 0 <= Stored(s) <= |s.journal| == Journalled(s) && s.store <= s.base + s.journal
      && |s.store| == |s.base| + Stored(s)
      && s.persisted == s.popped - |s.batch|
      && ((s.worker.Opening? || !u.shortWrites) && T.Read(s.disk).Ok? ==> T.Read(s.disk).value == s.store)
  }

  lemma StrictChain(s: State, u: Usage)
    requires InStep(s) && Strict(s, u)
    ensures Chain(s)
  {
    hide StoreOk;
  }

  lemma FailStrict(s: State, u: Usage)
    requires InStep(s) && Strict(s, u)
    ensures Strict(Fail(s), u)
  {
    hide StoreOk;
    StrictChain(s, u);
  }

  lemma StepStrict(s: State, step: Step, u: Usage)
    requires InStep(s) && Strict(s, u) && Allowed(s, step, u) && Orderly(u)
    ensures Strict(Act(s, step, u), u)
  {
    hide InStep, Strict;
    match step {
      case CheckStop(_) => CallStrict(s, step, u);
      case Push => PushStrict(s, u);
      case Stop => CallStrict(s, step, u);
      case Restart => RestartStrict(s, u);
      case Open(_) => OpenStrict(s, step, u);
      case ReadStop(_) => MoveStrict(s, Act(s, step, u), u);
      case CheckEmpty(_) => MoveStrict(s, Act(s, step, u), u);
      case TryPop(_) => MoveStrict(s, Act(s, step, u), u);
      case AppendOne => AppendStrict(s, u);
      case Sync(_) => SyncStrict(s, step, u);
      case Insert(write) => InsertStrict(s, write, u);
      case Count => CountStrict(s, u);
    }
  }

  lemma CallStrict(s: State, step: Step, u: Usage)
    requires Strict(s, u) && Allowed(s, step, u) && (step.CheckStop? || step.Stop?)
    ensures Strict(Act(s, step, u), u)
  {
    hide Chain, T.Read;
    if s.worker.Failed? {
      SameChain(s, Act(s, step, u));
    }
  }

  /** A step inside the worker that touches neither journal nor store. */
  lemma MoveStrict(s: State, s': State, u: Usage)
    requires Strict(s, u) && !s.worker.Failed? && !s'.worker.Failed? && !s'.worker.Opening?
    requires s'.journal == s.journal && s'.base == s.base && s'.store == s.store && s'.disk == s.disk
    requires s'.persisted == s.persisted && s'.popped - |s'.batch| == s.popped - |s.batch|
    requires Stored(s') == Stored(s) && Journalled(s') == Journalled(s)
    ensures Strict(s', u)
  {
    hide T.Read, Stored, Journalled;
  }

  lemma RestartStrict(s: State, u: Usage)
    requires InStep(s) && Strict(s, u) && Allowed(s, Restart, u) && Orderly(u)
    ensures Strict(Act(s, Restart, u), u)
  {
    hide StoreOk, JournalOk, T.Read;
  }

  lemma OpenStrict(s: State, step: Step, u: Usage)
    requires InStep(s) && Strict(s, u) && Allowed(s, step, u) && step.Open?
    ensures Strict(Act(s, step, u), u)
  {
    hide StoreOk, JournalOk, T.Read, Chain;
    if !step.ok {
      FailStrict(s, u);
    }
  }

  lemma SyncStrict(s: State, step: Step, u: Usage)
    requires InStep(s) && Strict(s, u) && Allowed(s, step, u) && step.Sync?
    ensures Strict(Act(s, step, u), u)
  {
    hide StoreOk, JournalOk, T.Read, Chain;
    if step.ok {
      MoveStrict(s, Act(s, step, u), u);
    } else {
      FailStrict(s, u);
    }
  }

  lemma CountStrict(s: State, u: Usage)
    requires Strict(s, u) && s.worker.Counting?
    ensures Strict(Act(s, Count, u), u)
  {
    hide T.Read;
  }

  lemma SameChain(s: State, s': State)
    requires Chain(s) && s' == s.(publisher := s'.publisher, stop := s'.stop, called := s'.called)
    ensures Chain(s')
  {
  }

  lemma PushStrict(s: State, u: Usage)
    requires InStep(s) && Strict(s, u) && s.publisher.Checked?
    ensures Strict(s.(pushed := s.pushed + [s.publisher.fill], publisher := Idle), u)
  {
    hide StoreOk, JournalOk, T.Read;
  }

  lemma AppendStrict(s: State, u: Usage)
    requires InStep(s) && Strict(s, u) && Allowed(s, AppendOne, u)
    ensures Strict(Act(s, AppendOne, u), u)
  {
    hide StoreOk, JournalOk, T.Read, Chain;
    var s' := Act(s, AppendOne, u);
    if s'.worker.Failed? {
      FailStrict(s, u);
    } else if s.worker.done < |s.batch| {
      LongerPrefix(s.store, s.base, s.journal, s.batch[s.worker.done]);
    }
  }

  lemma LongerPrefix(s: seq<Fill>, base: seq<Fill>, journal: seq<Fill>, f: Fill)
    requires s <= base + journal
    ensures s <= base + (journal + [f])
  {
    assert base + (journal + [f]) == base + journal + [f];
  }

  /** Before the insertion the journal ends with the batch. */
  lemma BatchJournalled(s: State)
    requires BatchOk(s) && JournalOk(s) && s.worker.Inserting?
    ensures |s.journal| == s.popped && forall i | 0 <= i < |s.batch| :: s.batch[i] == s.journal[Stored(s) + i]
  {
  }

  lemma NextPart(part: seq<Fill>, base: seq<Fill>, journal: seq<Fill>, batch: seq<Fill>)
    requires part <= base + journal && |base| <= |part| && |part| + |batch| == |base| + |journal|
    requires forall i | 0 <= i < |batch| :: batch[i] == journal[|part| - |base| + i]
    ensures part + batch <= base + journal
  {
    var all := base + journal;
    forall i | 0 <= i < |part| + |batch| ensures (part + batch)[i] == all[i] {
      if i >= |part| {
        assert batch[i - |part|] == journal[|part| - |base| + (i - |part|)];
      }
    }
  }

  lemma StagedPrefix(s: State, u: Usage)
    requires InStep(s) && Strict(s, u) && s.worker.Inserting?
    ensures s.journal <= s.pushed && |s.batch| <= s.popped == |s.journal| && s.store + s.batch <= s.base + s.journal
  {
    hide StoreOk, T.Read;
    BatchJournalled(s);
    NextPart(s.store, s.base, s.journal, s.batch);
  }

  lemma InsertStrict(s: State, write: T.Write, u: Usage)
    requires InStep(s) && Strict(s, u) && Allowed(s, Insert(write), u)
    ensures Strict(Act(s, Insert(write), u), u)
  {
    hide InStep, T.Read, T.FileAfter;
    T.ReadAfterWrite(s.disk, s.store + s.batch, write);
    StagedPrefix(s, u);
  }

  lemma {:induction false} RunStrict(states: seq<State>, u: Usage, n: nat)
    requires IsRun(states, u) && n < |states| && Orderly(u)
    ensures Strict(states[n], u)
  {
    hide InStep, Act, Allowed;
    if n == 0 {
      assert states[0].base + [] == states[0].base;
    } else {
      hide Strict, Initial;
      RunStrict(states, u, n - 1);
      RunKeeps(states, u, n - 1);
      var s, s' := states[n - 1], states[n];
      assert Next(s, s', u);
      var step :| Allowed(s, step, u) && s' == Act(s, step, u);
      StepStrict(s, step, u);
    }
  }

  /** In orderly use, at every step of every run, failed or not: the store is behind the journal, the journal behind
      what was published. */
  lemma JournalAheadOfStore(states: seq<State>, u: Usage, n: nat)
    requires IsRun(states, u) && n < |states| && Orderly(u)
    ensures Chain(states[n])
  {
    hide IsRun, InStep, Strict, Chain;
    RunKeeps(states, u, n);
    RunStrict(states, u, n);
    StrictChain(states[n], u);
  }

  /** In orderly use an error-free worker has kept exactly what it popped. */
  lemma StopKeepsPopped(states: seq<State>, u: Usage, n: nat)
    requires IsRun(states, u) && n < |states| && Orderly(u) && states[n].worker.Done?
    ensures var s := states[n];
            && s.popped <= |s.pushed| && s.journal == s.pushed[..s.popped] && s.store == s.base + s.journal
            && s.persisted == s.popped && (s.journal == s.pushed <==> s.popped == |s.pushed|)
  {
    hide IsRun, StoreOk;
    RunKeeps(states, u, n);
    RunStrict(states, u, n);
  }

  // --- One thread ------------------------------------------------------------------------------

  /** With one thread making all calls: nothing is pushed once the worker has seen the stop flag. */
  ghost predicate Quiet(s: State) {
    && (s.called ==> s.publisher.Idle?) && (s.stop && !s.worker.Failed? ==> s.called)
    && (s.worker.EmptyCheck? ==> s.called && s.seen == |s.pushed|)
    && (Leaving(s.worker) ==> s.called && s.popped == |s.pushed|)
  }

  lemma StepQuiet(s: State, step: Step, u: Usage)
    requires InStep(s) && Quiet(s) && Allowed(s, step, u) && u.oneThread
    ensures Quiet(Act(s, step, u))
  {
    hide JournalOk, StoreOk;
  }

  lemma {:induction false} RunQuiet(states: seq<State>, u: Usage, n: nat)
    requires IsRun(states, u) && n < |states| && u.oneThread
    ensures Quiet(states[n])
  {
    hide InStep, Act, Allowed;
    if n > 0 {
      hide Quiet, Initial;
      RunQuiet(states, u, n - 1);
      RunKeeps(states, u, n - 1);
      var s, s' := states[n - 1], states[n];
      assert Next(s, s', u);
      var step :| Allowed(s, step, u) && s' == Act(s, step, u);
      StepQuiet(s, step, u);
    }
  }

  /** After an error-free stop, with one thread making all calls, nothing published is missing anywhere. */
  lemma CleanStopKeepsAll(states: seq<State>, u: Usage, n: nat)
    requires IsRun(states, u) && n < |states| && Orderly(u) && u.oneThread && states[n].worker.Done?
    ensures var s := states[n]; s.journal == s.pushed && s.store == s.base + s.pushed && s.persisted == |s.pushed|
  {
    hide IsRun;
    StopKeepsPopped(states, u, n);
    RunQuiet(states, u, n);
    assert states[n].pushed[..|states[n].pushed|] == states[n].pushed;
  }

  // --- Runs that lose something ----------------------------------------------------------------

  ghost predicate EndsIn(states: seq<State>, s: State, u: Usage) {
    IsRun(states, u) && states[|states| - 1] == s
  }

  /** Some run ends in this state. */
  ghost predicate Reachable(s: State, u: Usage) {
    exists states :: EndsIn(states, s, u)
  }

  /** One more step of a run. */
  lemma Go(s: State, step: Step, u: Usage) returns (s': State)
    requires Reachable(s, u) && Allowed(s, step, u)
    ensures Reachable(s', u) && s' == Act(s, step, u)
  {
    var states :| EndsIn(states, s, u);
    s' := Act(s, step, u);
    hide Act, Allowed, Initial;
    var more := states + [s'];
    forall i | 0 < i < |more| ensures Next(more[i - 1], more[i], u) {
      if i < |states| {
        assert Next(states[i - 1], states[i], u);
      }
    }
    assert EndsIn(more, s', u);
  }

  function Fresh(room: nat): State {
    State([], 0, 0, false, false, Idle, Opening, [], 1, room, [], [], [], T.Missing, 0)
  }

  lemma Begin(room: nat, u: Usage) returns (s: State)
    ensures Reachable(s, u) && s == Fresh(room)
  {
    s := Fresh(room);
    assert EndsIn([s], s, u);
  }

  lemma Publish(s: State, fill: Fill, u: Usage) returns (s': State)
    requires Reachable(s, u) && s.publisher.Idle? && !s.called
    ensures Reachable(s', u) && s' == s.(pushed := s.pushed + [fill])
  {
    hide Reachable;
    s' := Go(s, CheckStop(fill), u);
    s' := Go(s', Push, u);
  }

  /** Journal a batch of one fill and come to its insertion. */
  lemma JournalOne(s: State, f: Fill, u: Usage) returns (s': State)
    requires Reachable(s, u) && s.worker == Appending(0, false) && s.batch == [f] && |s.journal| < s.room
    ensures Reachable(s', u) && s' == s.(journal := s.journal + [f], worker := Inserting(false))
  {
    hide Reachable;
    s' := Go(s, AppendOne, u);
    s' := Go(s', AppendOne, u);
    s' := Go(s', Sync(true), u);
  }

  /** Pop the only fill that is left, journal it and come to its insertion. */
  lemma PopOne(s: State, u: Usage) returns (s': State)
    requires Reachable(s, u) && s.worker.Popping? && s.batch == [] && s.batchSize == 1 && |s.journal| < s.room
    requires s.seen <= |s.pushed| && s.popped < |s.pushed|
    ensures Reachable(s', u)
    ensures var f := s.pushed[s.popped];
            s' == s.(seen := |s.pushed|, popped := s.popped + 1, batch := [f], journal := s.journal + [f],
                     worker := Inserting(false))
  {
    hide Reachable;
    var f := s.pushed[s.popped];
    assert [] + [f] == [f];
    s' := Go(s, TryPop(|s.pushed|), u);
    s' := JournalOne(s', f, u);
  }

  /** With the ring empty, a worker that sees the stop flag leaves. */
  lemma Leave(s: State, u: Usage) returns (s': State)
    requires Reachable(s, u) && s.worker.Top? && s.stop && s.batch == [] && s.popped == s.seen == |s.pushed|
    ensures Reachable(s', u) && s' == s.(worker := Done)
  {
    hide Reachable;
    s' := Go(s, ReadStop(true), u);
    s' := Go(s', CheckEmpty(s.seen), u);
    s' := Go(s', Sync(true), u);
  }

  /** With separate threads a fill can be published, by a call that reports success, and not be journalled when the
      worker has left without an error: the flag is checked before, and the push comes after, the worker's last look
      at the ring. Only another start would pick the fill up. */
  lemma LostFill(fill: Fill, u: Usage) returns (s: State)
    requires !u.oneThread
    ensures Reachable(s, u) && s.worker.Done? && s.publisher.Idle?
    ensures s.pushed == [fill] && s.journal == s.store == s.base == []
  {
    hide Reachable;
    s := Begin(1, u);
    s := Go(s, CheckStop(fill), u);
    s := Go(s, Stop, u);
    s := Go(s, Open(true), u);
    s := Leave(s, u);
    s := Go(s, Push, u);
  }

  /** Up to the insertion of the first fill. */
  lemma FirstFlush(fills: seq<Fill>, u: Usage) returns (s: State)
    requires 0 < |fills| <= 2
    ensures Reachable(s, u)
    ensures s == Fresh(2).(pushed := fills, seen := |fills|, popped := 1, batch := [fills[0]], journal := [fills[0]],
                           worker := Inserting(false))
  {
    hide Reachable;
    s := Begin(2, u);
    s := Publish(s, fills[0], u);
    if |fills| == 2 {
      s := Publish(s, fills[1], u);
    }
    assert s.pushed == fills;
    s := Go(s, Open(true), u);
    s := Go(s, ReadStop(false), u);
    s := PopOne(s, u);
  }

  /** A pipeline that is started again after a failed insert goes on behind the gap: the first fill is in the journal
      and not in the store, the second in both. */
  lemma GapAfterFailure(f: Fill, g: Fill, u: Usage) returns (s: State)
    requires u.restarts.Always?
    ensures Reachable(s, u) && s.worker.Done? && s.publisher.Idle?
    ensures s.pushed == s.journal == [f, g] && s.base == [] && s.store == [g] && s.persisted == 1
  {
    hide Reachable;
    s := FirstFlush([f, g], u);
    s := Go(s, Insert(T.Unopened), u);
    s := Go(s, Stop, u);
    s := Go(s, Restart, u);
    s := Go(s, Open(true), u);
    s := Go(s, ReadStop(true), u);
    s := SecondFlush(s, f, g, u);
    s := Leave(s, u);
  }

  lemma SecondFlush(s: State, f: Fill, g: Fill, u: Usage) returns (s': State)
    requires Reachable(s, u)
    requires s == Fresh(2).(pushed := [f, g], popped := 1, seen := 2, stop := true, called := true, journal := [f],
                            worker := EmptyCheck)
    ensures Reachable(s', u)
    ensures s' == s.(popped := 2, journal := [f, g], store := [g], disk := T.Stored(1, [g]), persisted := 1,
                     worker := Top)
  {
    hide Reachable;
    assert [] + [g] == [g];
    s' := Go(s, CheckEmpty(2), u);
    s' := PopOne(s', u);
    s' := Go(s', Insert(T.Wrote(true, T.Records(1))), u);
    s' := Go(s', Count, u);
  }

  /** A write that reports success without reaching the disk: after an error-free stop and another start the store is
      empty, and the fill is still counted as persisted. */
  lemma LossAfterShortWrite(f: Fill, u: Usage) returns (s: State)
    requires !u.restarts.Never? && u.shortWrites
    ensures Reachable(s, u) && s.worker.Done? && s.publisher.Idle?
    ensures s.pushed == s.journal == [f] && s.base == s.store == [] && s.persisted == 1
  {
    hide Reachable;
    s := FirstFlush([f], u);
    s := Go(s, Insert(T.Wrote(true, T.NoCount)), u);
    s := Go(s, Count, u);
    s := Go(s, Stop, u);
    s := Leave(s, u);
    s := Go(s, Restart, u);
    s := Go(s, Open(true), u);
    s := Leave(s, u);
  }

  // --- Exactly when ----------------------------------------------------------------------------

  ghost predicate KeepsChain(u: Usage) {
    forall s | Reachable(s, u) :: Chain(s)
  }

  /** Store, journal and published fills stay in line, in every run, exactly if the pipeline is not started again, or
      only after error-free runs and on a disk that keeps what it reports. */
  lemma KeepsChainIff(u: Usage)
    ensures KeepsChain(u) <==> Orderly(u)
  {
    hide IsRun;
    if Orderly(u) {
      forall s | Reachable(s, u) ensures Chain(s) {
        var states :| EndsIn(states, s, u);
        assert states != [] by { RunNotEmpty(states, u); }
        JournalAheadOfStore(states, u, |states| - 1);
      }
    } else if u.restarts.Always? {
      var s := GapAfterFailure(Fill(1, 2, 1, 1, 0, 0), Fill(3, 4, 1, 1, 1, 0), u);
      assert s.store[0] != (s.base + s.journal)[0];
    } else {
      var s := LossAfterShortWrite(Fill(1, 2, 1, 1, 0, 0), u);
      assert s.persisted > |s.store| - |s.base|;
    }
  }

  lemma RunNotEmpty(states: seq<State>, u: Usage)
    requires IsRun(states, u)
    ensures states != []
  {
  }

  /** Whatever was published is journalled and stored once the worker has left without an error. */
  ghost predicate NeverLoses(u: Usage) {
    forall s | Reachable(s, u) && s.worker.Done? :: s.journal == s.pushed && s.store == s.base + s.pushed
  }

  /** An error-free stop is sure to keep everything exactly if one thread makes all calls and the use is orderly. */
  lemma NeverLosesIff(u: Usage)
    ensures NeverLoses(u) <==> u.oneThread && Orderly(u)
  {
    hide IsRun;
    if !u.oneThread {
      var s := LostFill(Fill(1, 2, 1, 1, 0, 0), u);
      assert |s.journal| != |s.pushed|;
    } else if Orderly(u) {
      forall s | Reachable(s, u) && s.worker.Done? ensures s.journal == s.pushed && s.store == s.base + s.pushed {
        var states :| EndsIn(states, s, u);
        assert states != [] by { RunNotEmpty(states, u); }
        CleanStopKeepsAll(states, u, |states| - 1);
      }
    } else if u.restarts.Always? {
      var s := GapAfterFailure(Fill(1, 2, 1, 1, 0, 0), Fill(3, 4, 1, 1, 1, 0), u);
      assert |s.store| != |s.base + s.pushed|;
    } else {
      var s := LossAfterShortWrite(Fill(1, 2, 1, 1, 0, 0), u);
      assert |s.store| != |s.base + s.pushed|;
    }
  }

  // --- The worker gets there -------------------------------------------------------------------

  /** The worker's next step when every read returns the current value and every file operation succeeds. */
  function FreshStep(s: State): Step {
    match s.worker
    case Opening => Open(true)
    case Top => ReadStop(s.stop)
    case EmptyCheck => CheckEmpty(|s.pushed|)
    case Popping => TryPop(|s.pushed|)
    case Appending(_, _) => AppendOne
    case Syncing(_) => Sync(true)
    case Inserting(_) => Insert(T.Wrote(true, T.Records(|s.store| + |s.batch|)))
    case Counting(_) => Count
    case _ => Sync(true)
  }

  /** After `stop`, with room in the journal for everything published and a store file that opens if it has yet to. */
  predicate CanFinish(s: State) {
    && s.stop && !s.worker.Failed? && |s.pushed| <= s.room && s.batchSize >= 1
    && (s.worker.Opening? ==> T.Read(s.disk).Ok?)
  }

  /** How many such steps the worker is away from leaving. */
  function StepsLeft(s: State): nat
    requires s.popped <= |s.pushed|
  {
    var rest, a := |s.pushed| - s.popped, |s.batch|;
    10 * rest +
    match s.worker
    case Opening => 9
    case Top => a + 8
    case EmptyCheck => a + 7
    case Popping => if rest > 0 then a + 6 else a + 13
    case Appending(i, last) => (if i < a then a - i else 0) + if last then 5 else 12
    case Syncing(last) => if last then 4 else 11
    case Inserting(last) => if last then 3 else 10
    case Counting(last) => if last then 2 else 9
    case FinalSync => 1
    case _ => 0
  }

  lemma NothingMissing(s: State)
    requires BatchOk(s) && JournalOk(s) && |s.pushed| <= s.room
    ensures |s.journal| == Journalled(s)
  {
  }

  /** A step of the loop before the flush. */
  lemma ReadAdvances(s: State, u: Usage)
    requires BatchOk(s) && CanFinish(s)
             && (s.worker.Opening? || s.worker.Top? || s.worker.EmptyCheck? || s.worker.Popping?)
    ensures Allowed(s, FreshStep(s), u)
    ensures var s' := Act(s, FreshStep(s), u);
            && CanFinish(s') && s'.pushed == s.pushed && s'.popped <= |s'.pushed| && StepsLeft(s') < StepsLeft(s)
            && s'.batchSize == s.batchSize
  {
    hide T.Read;
  }

  /** A step of the flush, or the last sync. */
  lemma FlushAdvances(s: State, u: Usage)
    requires BatchOk(s) && JournalOk(s) && CanFinish(s) && !s.worker.Done?
    requires !(s.worker.Opening? || s.worker.Top? || s.worker.EmptyCheck? || s.worker.Popping?)
    ensures Allowed(s, FreshStep(s), u)
    ensures var s' := Act(s, FreshStep(s), u);
            && CanFinish(s') && s'.pushed == s.pushed && s'.popped <= |s'.pushed| && StepsLeft(s') < StepsLeft(s)
            && s'.batchSize == s.batchSize
  {
    hide T.Read, T.FileAfter;
    NothingMissing(s);
  }

  lemma FreshAdvances(s: State, u: Usage)
    requires InStep(s) && CanFinish(s) && !s.worker.Done?
    ensures Allowed(s, FreshStep(s), u)
    ensures var s' := Act(s, FreshStep(s), u);
            && InStep(s') && CanFinish(s') && s'.pushed == s.pushed && s'.popped <= |s'.pushed|
            && StepsLeft(s') < StepsLeft(s) && s'.batchSize == s.batchSize
    ensures Reachable(s, u) ==> Reachable(Act(s, FreshStep(s), u), u)
  {
    hide BatchOk, JournalOk, StoreOk, Act, Allowed, Reachable, FreshStep, StepsLeft;
    if s.worker.Opening? || s.worker.Top? || s.worker.EmptyCheck? || s.worker.Popping? {
      ReadAdvances(s, u);
    } else {
      FlushAdvances(s, u);
    }
    StepKeeps(s, FreshStep(s), u);
    if Reachable(s, u) {
      var s' := Go(s, FreshStep(s), u);
    }
  }

  /** The state after `k` such steps. */
  function Alone(s: State, u: Usage, k: nat): State
    decreases k
  {
    if k == 0 || s.worker.Done? || !Allowed(s, FreshStep(s), u) then s else Alone(Act(s, FreshStep(s), u), u, k - 1)
  }

  lemma {:induction false} AloneLeaves(s: State, u: Usage, k: nat)
    requires s.popped <= |s.pushed| && InStep(s) && CanFinish(s) && StepsLeft(s) <= k
    ensures var l := Alone(s, u, k); l.worker.Done? && l.pushed == s.pushed && InStep(l) && CanFinish(l)
    ensures Alone(s, u, k).batchSize == s.batchSize
    ensures Reachable(s, u) ==> Reachable(Alone(s, u, k), u)
    decreases k
  {
    hide InStep, Act, Allowed, Reachable, CanFinish, FreshStep, StepsLeft;
    if !s.worker.Done? {
      SomeStepsLeft(s);
      FreshAdvances(s, u);
      AloneLeaves(Act(s, FreshStep(s), u), u, k - 1);
    }
  }

  lemma SomeStepsLeft(s: State)
    requires s.popped <= |s.pushed| && CanFinish(s) && !s.worker.Done?
    ensures StepsLeft(s) > 0
  {
  }

  lemma ReachableInStep(s: State, u: Usage)
    requires Reachable(s, u)
    ensures InStep(s) && (u.oneThread ==> Quiet(s))
  {
    hide IsRun, InStep, Quiet;
    var states :| EndsIn(states, s, u);
    RunNotEmpty(states, u);
    RunKeeps(states, u, |states| - 1);
    if u.oneThread {
      RunQuiet(states, u, |states| - 1);
    }
  }

  /** Once stopped, in every reachable state that has not failed, a worker with current reads and working files leaves
      within ten steps for each fill in the ring, one for each fill in its batch, and thirteen more. What it journals
      is a prefix of what was published, and all of it if one thread makes all calls. */
  lemma StoppedWorkerLeaves(s: State, u: Usage) returns (l: State)
    requires Reachable(s, u) && CanFinish(s)
    ensures s.popped <= |s.pushed| && l == Alone(s, u, 10 * (|s.pushed| - s.popped) + |s.batch| + 13)
    ensures Reachable(l, u) && l.worker.Done? && l.pushed == s.pushed && l.journal <= l.pushed
    ensures l.batchSize == s.batchSize
    ensures u.oneThread ==> l.journal == l.pushed
  {
    hide Reachable, StoreOk, Alone;
    ReachableInStep(s, u);
    var k := 10 * (|s.pushed| - s.popped) + |s.batch| + 13;
    AloneLeaves(s, u, k);
    l := Alone(s, u, k);
    NothingMissing(l);
    ReachableInStep(l, u);
  }

  /** Some run of an orderly pipeline with one calling thread publishes these fills, whatever the batch size, and ends
      with all of them journalled and stored. */
  lemma {:induction false} EveryFeedCanBeKept(fills: seq<Fill>, batchSize: nat, u: Usage) returns (s: State)
    requires batchSize >= 1 && u.oneThread && Orderly(u)
    ensures Reachable(s, u) && s.worker.Done? && s.batchSize == batchSize
    ensures s.journal == s.pushed == fills && s.store == s.base + fills && s.persisted == |fills|
  {
    hide Reachable, Act, Allowed;
    s := Published(fills, |fills|, batchSize, u);
    s := Stops(s, u);
    s := StoppedWorkerLeaves(s, u);
    KeptWhenDone(s, u);
  }

  /** A pipeline that has been given these fills and has not begun to work. */
  lemma {:induction false} Published(fills: seq<Fill>, room: nat, batchSize: nat, u: Usage) returns (s: State)
    requires batchSize >= 1
    ensures Reachable(s, u) && s == Fresh(room).(pushed := fills, batchSize := batchSize)
  {
    if fills == [] {
      s := Fresh(room).(batchSize := batchSize);
      assert EndsIn([s], s, u);
    } else {
      hide Reachable, IsRun, Initial;
      s := Published(fills[..|fills| - 1], room, batchSize, u);
      s := Publish(s, fills[|fills| - 1], u);
      assert fills == fills[..|fills| - 1] + [fills[|fills| - 1]];
    }
  }

  lemma Stops(s: State, u: Usage) returns (s': State)
    requires Reachable(s, u) && s.publisher.Idle? && !s.called && s.worker.Opening? && |s.pushed| <= s.room
    requires s.batchSize >= 1 && T.Read(s.disk).Ok?
    ensures Reachable(s', u) && CanFinish(s') && s'.pushed == s.pushed && s'.batchSize == s.batchSize
  {
    hide Reachable, T.Read;
    s' := Go(s, Stop, u);
  }

  lemma KeptWhenDone(s: State, u: Usage)
    requires Reachable(s, u) && s.worker.Done? && Orderly(u) && u.oneThread
    ensures s.journal == s.pushed && s.store == s.base + s.pushed && s.persisted == |s.pushed|
  {
    hide IsRun;
    var states :| EndsIn(states, s, u);
    RunNotEmpty(states, u);
    CleanStopKeepsAll(states, u, |states| - 1);
  }
}
