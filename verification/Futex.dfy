/** The futex semaphore under every sequentially consistent interleaving of its atomic steps and the kernel's
    compare-and-sleep (include/infra/FutexSemaphore.h, Linux path, without shutdown). */
module Futex {
  /** `Once` is tryAcquire, `Timed` is tryAcquireFor, `Forever` is acquire. */
  datatype Mode = Once | Timed | Forever

  /** Where a thread is; the comment says what it does next. */
  datatype Thread =
    | Outside                              // call anything
    | Testing(mode: Mode)                  // load the count
    | Observed(mode: Mode, seen: nat)      // compare-and-swap from `seen` > 0
    | Empty(mode: Mode)                    // saw zero: check the deadline, or announce itself as a waiter
    | Announced(mode: Mode)                // load the count again
    | Parking(mode: Mode)                  // enter the kernel, which compares the count with zero
    | Asleep(mode: Mode)
    | Rising(mode: Mode, expired: bool)    // retire as a waiter
    | Released(n: nat)                     // count raised: load the waiter count
    | Waking(n: nat)                       // wake up to `n` sleepers

  datatype State = State(count: nat, waiters: int, threads: seq<Thread>, acquired: nat, released: nat)

  datatype Move =
    | Acquire(mode: Mode) | Release(n: nat) | Load | Swap(lucky: bool) | Deadline | Announce | Recheck | Park
    | Stir(expired: bool) | Retire | LoadWaiters | Wake(sleeper: nat) | DoneWaking

  predicate Allowed(s: State, t: nat, m: Move) {
    t < |s.threads| &&
    var me := s.threads[t];
    match m
    case Acquire(_) => me.Outside?
    case Release(_) => me.Outside?
    case Load => me.Testing?
    case Swap(_) => me.Observed?
    case Deadline => me == Empty(Timed)
    case Announce => me.Empty?
    case Recheck => me.Announced?
    case Park => me.Parking?
    case Stir(expired) => me.Asleep? && (expired ==> me.mode.Timed?)
    case Retire => me.Rising?
    case LoadWaiters => me.Released?
    case Wake(u) => me.Waking? && me.n > 0 && u < |s.threads| && s.threads[u].Asleep?
    case DoneWaking => me.Waking? && (me.n == 0 || forall u | 0 <= u < |s.threads| :: !s.threads[u].Asleep?)
  }

  /** What a thread does with an observed count. */
  function Saw(mode: Mode, count: nat): Thread {
    if count > 0 then Observed(mode, count) else if mode.Once? then Outside else Empty(mode)
  }

  function Put(s: State, t: nat, me: Thread): State
    requires t < |s.threads|
  {
    s.(threads := s.threads[t := me])
  }

  function Act(s: State, t: nat, m: Move): State
    requires Allowed(s, t, m)
  {
    var me := s.threads[t];
    match m
    case Acquire(mode) => Put(s, t, Testing(mode))
    case Release(n) => Put(s, t, Released(n)).(count := s.count + n, released := s.released + n)
    case Load => Put(s, t, Saw(me.mode, s.count))
    case Swap(lucky) =>
      if lucky && s.count == me.seen && s.count > 0
      then Put(s, t, Outside).(count := s.count - 1, acquired := s.acquired + 1)
      else Put(s, t, Saw(me.mode, s.count))
    case Deadline => Put(s, t, Outside)
    case Announce => Put(s, t, Announced(me.mode)).(waiters := s.waiters + 1)
    case Recheck => Put(s, t, if s.count == 0 then Parking(me.mode) else Rising(me.mode, false))
    case Park => Put(s, t, if s.count == 0 then Asleep(me.mode) else Rising(me.mode, false))
    case Stir(expired) => Put(s, t, Rising(me.mode, expired))
    case Retire => Put(s, t, if me.expired then Outside else Testing(me.mode)).(waiters := s.waiters - 1)
    case LoadWaiters => Put(s, t, if s.waiters > 0 then Waking(me.n) else Outside)
    case Wake(u) => Put(Put(s, t, Waking(me.n - 1)), u, Rising(s.threads[u].mode, false))
    case DoneWaking => Put(s, t, Outside)
  }

  predicate Initial(s: State) {
    && s.waiters == 0 && s.acquired == 0 && s.released == 0
    && forall t | 0 <= t < |s.threads| :: s.threads[t].Outside?
  }

  ghost predicate Next(s: State, s': State) {
    exists t, m :: Allowed(s, t, m) && s' == Act(s, t, m)
  }

  ghost predicate IsRun(states: seq<State>) {
    states != [] && Initial(states[0]) && forall i | 0 < i < |states| :: Next(states[i - 1], states[i])
  }

  // --- Counting threads ------------------------------------------------------------------------

  function Sum(f: Thread -> nat, threads: seq<Thread>): nat {
    if threads == [] then 0 else Sum(f, threads[..|threads| - 1]) + f(threads[|threads| - 1])
  }

  lemma {:induction false} SumUpdate(f: Thread -> nat, threads: seq<Thread>, t: nat, me: Thread)
    requires t < |threads|
    ensures Sum(f, threads[t := me]) + f(threads[t]) == Sum(f, threads) + f(me)
  {
    var n := |threads| - 1;
    if t == n {
      assert threads[t := me][..n] == threads[..n];
    } else {
      assert threads[t := me][..n] == threads[..n][t := me];
      SumUpdate(f, threads[..n], t, me);
    }
  }

  lemma {:induction false} SumBounds(f: Thread -> nat, g: Thread -> nat, threads: seq<Thread>)
    requires forall x :: f(x) <= g(x)
    ensures Sum(f, threads) <= Sum(g, threads)
  {
    if threads != [] {
      SumBounds(f, g, threads[..|threads| - 1]);
    }
  }

  lemma {:induction false} SumZero(f: Thread -> nat, threads: seq<Thread>)
    ensures Sum(f, threads) == 0 <==> forall t | 0 <= t < |threads| :: f(threads[t]) == 0
  {
    if threads != [] {
      var init := threads[..|threads| - 1];
      SumZero(f, init);
      assert forall t | 0 <= t < |init| :: init[t] == threads[t];
    }
  }

  /** Announced and not yet retired. */
  function Waits(x: Thread): nat {
    if x.Announced? || x.Parking? || x.Asleep? || x.Rising? then 1 else 0
  }

  function Sleeps(x: Thread): nat {
    if x.Asleep? then 1 else 0
  }

  /** Wakes still to come from this thread. */
  function Owes(x: Thread): nat {
    if x.Released? || x.Waking? then x.n else 0
  }

  /** Awake, and yet to test the count. */
  function Tests(x: Thread): nat {
    if x.Testing? || x.Observed? || (x.Rising? && !x.expired) then 1 else 0
  }

  ghost predicate Invariant(s: State, initial: nat) {
    && s.acquired + s.count == initial + s.released
    && s.waiters == Sum(Waits, s.threads)
    && (Sum(Sleeps, s.threads) > 0 ==> s.count <= Sum(Owes, s.threads) + Sum(Tests, s.threads))
  }

  lemma PutSums(threads: seq<Thread>, t: nat, me: Thread)
    requires t < |threads|
    ensures var r := threads[t := me];
            && Sum(Waits, r) + Waits(threads[t]) == Sum(Waits, threads) + Waits(me)
            && Sum(Sleeps, r) + Sleeps(threads[t]) == Sum(Sleeps, threads) + Sleeps(me)
            && Sum(Owes, r) + Owes(threads[t]) == Sum(Owes, threads) + Owes(me)
            && Sum(Tests, r) + Tests(threads[t]) == Sum(Tests, threads) + Tests(me)
  {
    SumUpdate(Waits, threads, t, me);
    SumUpdate(Sleeps, threads, t, me);
    SumUpdate(Owes, threads, t, me);
    SumUpdate(Tests, threads, t, me);
  }

  lemma MoveKeeps(s: State, t: nat, m: Move, initial: nat)
    requires Invariant(s, initial) && Allowed(s, t, m)
    ensures Invariant(Act(s, t, m), initial)
  {
    hide Sum;
    var s' := Act(s, t, m);
    PutSums(s.threads, t, s'.threads[t]);
    match m {
      case Wake(u) => PutSums(s.threads[t := s'.threads[t]], u, s'.threads[u]);
      case LoadWaiters => SumBounds(Sleeps, Waits, s.threads);
      case DoneWaking => SumZero(Sleeps, s.threads);
      case _ =>
    }
  }

  lemma {:induction false} RunKeeps(states: seq<State>, n: nat)
    requires IsRun(states) && n < |states|
    ensures Invariant(states[n], states[0].count)
  {
    if n == 0 {
      SumZero(Waits, states[0].threads);
      SumZero(Sleeps, states[0].threads);
    } else {
      hide Invariant, Act, Allowed;
      RunKeeps(states, n - 1);
      assert Next(states[n - 1], states[n]);
      var t, m :| Allowed(states[n - 1], t, m) && states[n] == Act(states[n - 1], t, m);
      MoveKeeps(states[n - 1], t, m, states[0].count);
    }
  }

  /** No wakeup is lost: while a thread sleeps, every available permit is covered by a wake still to come or by an awake
      acquirer that has yet to test the count. */
  lemma NoLostWakeup(states: seq<State>, n: nat, sleeper: nat)
    requires IsRun(states) && n < |states| && sleeper < |states[n].threads| && states[n].threads[sleeper].Asleep?
    ensures states[n].count <= Sum(Owes, states[n].threads) + Sum(Tests, states[n].threads)
  {
    RunKeeps(states, n);
    SumZero(Sleeps, states[n].threads);
  }

  /** Once no call is in progress except sleeping ones, a sleeper means that there is no permit. */
  lemma QuiescentSleepersHaveNoPermit(states: seq<State>, n: nat, sleeper: nat)
    requires IsRun(states) && n < |states| && sleeper < |states[n].threads| && states[n].threads[sleeper].Asleep?
    requires forall t | 0 <= t < |states[n].threads| :: states[n].threads[t].Outside? || states[n].threads[t].Asleep?
    ensures states[n].count == 0
  {
    NoLostWakeup(states, n, sleeper);
    SumZero(Owes, states[n].threads);
    SumZero(Tests, states[n].threads);
  }

  /** Permits are conserved: successful acquires never exceed the initial and the released permits. */
  lemma PermitsConserved(states: seq<State>, n: nat)
    requires IsRun(states) && n < |states|
    ensures states[n].acquired + states[n].count == states[0].count + states[n].released
    ensures states[n].waiters == Sum(Waits, states[n].threads)
  {
    RunKeeps(states, n);
  }

  // --- What each call does ---------------------------------------------------------------------

  /** The thread is inside an acquiring call of this mode. */
  predicate Acquiring(x: Thread, mode: Mode) {
    match x
    case Testing(m) => m == mode
    case Observed(m, _) => m == mode
    case Empty(m) => m == mode
    case Announced(m) => m == mode
    case Parking(m) => m == mode
    case Asleep(m) => m == mode
    case Rising(m, _) => m == mode
    case _ => false
  }

  /** The state in which thread `t` has left its call with one permit. */
  function Served(s: State, t: nat): State
    requires t < |s.threads| && s.count > 0
  {
    s.(threads := s.threads[t := Outside], count := s.count - 1, acquired := s.acquired + 1)
  }

  /** With a permit available, an acquiring call that moves alone and whose compare-and-swap does not fail spuriously
      takes it and returns after two moves. */
  lemma TakesPermit(s: State, t: nat, mode: Mode)
    requires t < |s.threads| && s.threads[t] == Testing(mode) && s.count > 0
    ensures Allowed(s, t, Load)
    ensures var s1 := Act(s, t, Load);
            Allowed(s1, t, Swap(true)) && Act(s1, t, Swap(true)) == Served(s, t)
  {
  }

  /** Without one, `tryAcquire` gives up at once, and the other calls sleep after four moves, announced as waiters. */
  lemma FindsNoPermit(s: State, t: nat, mode: Mode)
    requires t < |s.threads| && s.threads[t] == Testing(mode) && s.count == 0
    ensures Allowed(s, t, Load)
    ensures mode == Once ==> Act(s, t, Load) == s.(threads := s.threads[t := Outside])
    ensures mode != Once ==>
              var s1 := Act(s, t, Load);
              Allowed(s1, t, Announce) &&
              var s2 := Act(s1, t, Announce);
              Allowed(s2, t, Recheck) &&
              var s3 := Act(s2, t, Recheck);
              Allowed(s3, t, Park) &&
              Act(s3, t, Park) == s.(threads := s.threads[t := Asleep(mode)], waiters := s.waiters + 1)
  {
  }

  /** Only a timed call can find its time up, and `tryAcquire` never waits. */
  predicate ModeOk(x: Thread) {
    && (x.Rising? && x.expired ==> x.mode == Timed)
    && (x.Empty? || x.Announced? || x.Parking? || x.Asleep? || x.Rising? ==> x.mode != Once)
    && (x.Observed? ==> x.seen > 0)
  }

  lemma {:induction false} RunModes(states: seq<State>, n: nat)
    requires IsRun(states) && n < |states|
    ensures forall t | 0 <= t < |states[n].threads| :: ModeOk(states[n].threads[t])
  {
    if n > 0 {
      RunModes(states, n - 1);
      assert Next(states[n - 1], states[n]);
    }
  }

  /** How a call ends: with a permit; or, `tryAcquire`, on seeing that there is none; or, `tryAcquireFor`, when its
      time is up. `acquire` returns only with a permit. */
  lemma LeavesWithPermitUnless(states: seq<State>, n: nat, u: nat, m: Move, t: nat, mode: Mode)
    requires IsRun(states) && n < |states|
    requires Allowed(states[n], u, m) && t < |states[n].threads| && Acquiring(states[n].threads[t], mode)
    requires Act(states[n], u, m).threads[t].Outside?
    ensures u == t
    ensures var s := states[n];
            || (s.count > 0 && Act(s, u, m) == Served(s, t))
            || (mode == Once && s.count == 0 && (m.Load? || m.Swap?))
            || (mode == Timed && m == Deadline)
            || (mode == Timed && m == Retire && s.threads[t] == Rising(Timed, true))
    ensures var s := states[n];
            !(s.count > 0 && Act(s, u, m) == Served(s, t)) ==>
              Act(s, u, m).count == s.count && Act(s, u, m).acquired == s.acquired
  {
    hide IsRun;
    RunModes(states, n);
    assert ModeOk(states[n].threads[t]);
  }

  /** A permit is taken only by a call that leaves with it. */
  lemma TakenOnlyByLeaving(s: State, t: nat, m: Move)
    requires Allowed(s, t, m) && Act(s, t, m).acquired != s.acquired
    ensures s.count > 0 && Act(s, t, m) == Served(s, t) && s.threads[t].Observed?
  {
  }

  /** In every reachable state: `release` raises the count, and if a thread sleeps, it finds a waiter announced and
      can wake that thread, which then takes a permit. */
  lemma ReleaseServesSleeper(states: seq<State>, n: nat, t: nat, u: nat, k: nat)
    requires IsRun(states) && n < |states| && t < |states[n].threads| && u < |states[n].threads|
    requires states[n].threads[t].Outside? && states[n].threads[u].Asleep? && k > 0
    ensures var s := states[n];
            Allowed(s, t, Release(k)) &&
            var s1 := Act(s, t, Release(k));
            s1.count == s.count + k && Allowed(s1, t, LoadWaiters) &&
            var s2 := Act(s1, t, LoadWaiters);
            Allowed(s2, t, Wake(u)) &&
            var s3 := Act(s2, t, Wake(u));
            Allowed(s3, u, Retire) &&
            var s4 := Act(s3, u, Retire);
            && s4.waiters == s.waiters - 1 && s4.threads[t] == Waking(k - 1)
            && s4.threads[u] == Testing(s.threads[u].mode) && s4.count > 0
            && (k == 1 ==> Allowed(s4, t, DoneWaking) && Act(s4, t, DoneWaking).threads[t].Outside?)
  {
    hide Invariant;
    RunKeeps(states, n);
    AnnouncedWaiter(states[n], u, states[0].count);
  }

  lemma AnnouncedWaiter(s: State, u: nat, initial: nat)
    requires Invariant(s, initial) && u < |s.threads| && Waits(s.threads[u]) == 1
    ensures s.waiters > 0
  {
    SumZero(Waits, s.threads);
  }

  /** A timed sleeper whose time is up leaves without a permit. */
  lemma SleeperGivesUp(s: State, t: nat)
    requires t < |s.threads| && s.threads[t] == Asleep(Timed)
    ensures Allowed(s, t, Stir(true))
    ensures var s1 := Act(s, t, Stir(true));
            Allowed(s1, t, Retire) &&
            Act(s1, t, Retire) == s.(threads := s.threads[t := Outside], waiters := s.waiters - 1)
  {
  }

  /** In every state, only a sleeping thread has to wait for others: any other thread has a move of its own, and a
      thread inside a call one that continues the call. */
  lemma OnlySleepersWait(s: State, t: nat) returns (m: Move)
    requires t < |s.threads| && !s.threads[t].Asleep?
    ensures Allowed(s, t, m) && (s.threads[t].Outside? <==> m.Acquire? || m.Release?)
  {
    match s.threads[t]
    case Outside => m := Acquire(Once);
    case Testing(_) => m := Load;
    case Observed(_, _) => m := Swap(true);
    case Empty(_) => m := Announce;
    case Announced(_) => m := Recheck;
    case Parking(_) => m := Park;
    case Rising(_, _) => m := Retire;
    case Released(_) => m := LoadWaiters;
    case Waking(n) =>
      if n > 0 && exists u | 0 <= u < |s.threads| :: s.threads[u].Asleep? {
        var u: nat :| u < |s.threads| && s.threads[u].Asleep?;
        m := Wake(u);
      } else {
        m := DoneWaking;
      }
  }

  /** Without waiters a release raises the count and returns after two moves. */
  lemma ReleaseAlone(s: State, t: nat, k: nat)
    requires t < |s.threads| && s.threads[t].Outside? && s.waiters == 0
    ensures Allowed(s, t, Release(k))
    ensures var s1 := Act(s, t, Release(k));
            Allowed(s1, t, LoadWaiters) &&
            Act(s1, t, LoadWaiters) == s.(count := s.count + k, released := s.released + k)
  {
    assert s.threads[t := Released(k)][t := Outside] == s.threads;
  }
}
