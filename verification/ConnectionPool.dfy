/** Connections handed out through a queue guarded by a semaphore, under every interleaving of leases being acquired,
    moved and reset (include/store/TradeStore.h). The semaphore is its count of permits. */
module ConnectionPools {
  /** A lease object. While `Returning`, its pointer is stale: the connection is back in the queue. */
  datatype Lease = Vacant | Holding(conn: nat) | Returning(conn: nat)

  /** Where a thread is between the pool's atomic steps. */
  datatype Thread =
    | Idle
    | Permitted                    // has taken a permit, has yet to pop
    | Carrying(conn: nat)          // has popped, has yet to fill a lease
    | Pushed(lease: nat)           // has pushed a lease's connection back, has yet to release the permit

  datatype State = State(permits: nat, queue: seq<nat>, threads: seq<Thread>, leases: seq<Lease>)

  datatype Move =
    | TakePermit | Pop | Fill(lease: nat) | Reset(lease: nat) | ReleasePermit | MoveLease(from: nat, to: nat)

  /** `Pop` takes the front of the queue without looking whether there is one. */
  predicate Allowed(s: State, t: nat, m: Move) {
    t < |s.threads| &&
    match m
    case TakePermit => s.threads[t].Idle? && s.permits > 0
    case Pop => s.threads[t].Permitted?
    case Fill(l) => s.threads[t].Carrying? && l < |s.leases| && s.leases[l].Vacant?
    case Reset(l) => s.threads[t].Idle? && l < |s.leases| && s.leases[l].Holding?
    case ReleasePermit => s.threads[t].Pushed? && s.threads[t].lease < |s.leases|
    case MoveLease(from, to) =>
      s.threads[t].Idle? && from < |s.leases| && to < |s.leases| && !s.leases[from].Returning? && s.leases[to].Vacant?
  }

  function Act(s: State, t: nat, m: Move): State
    requires Allowed(s, t, m) && (m.Pop? ==> s.queue != [])
  {
    match m
    case TakePermit => s.(permits := s.permits - 1, threads := s.threads[t := Permitted])
    case Pop => s.(queue := s.queue[1..], threads := s.threads[t := Carrying(s.queue[0])])
    case Fill(l) => s.(leases := s.leases[l := Holding(s.threads[t].conn)], threads := s.threads[t := Idle])
    case Reset(l) =>
      var c := s.leases[l].conn;
      s.(queue := s.queue + [c], leases := s.leases[l := Returning(c)], threads := s.threads[t := Pushed(l)])
    case ReleasePermit =>
      s.(permits := s.permits + 1, leases := s.leases[s.threads[t].lease := Vacant], threads := s.threads[t := Idle])
    case MoveLease(from, to) => s.(leases := s.leases[to := s.leases[from]][from := Vacant])
  }

  ghost predicate Initial(s: State, all: set<nat>) {
    && multiset(s.queue) == multiset(all) && s.permits == |s.queue|
    && (forall t | 0 <= t < |s.threads| :: s.threads[t].Idle?)
    && (forall l | 0 <= l < |s.leases| :: s.leases[l].Vacant?)
  }

  /** A pop from an empty queue would be undefined; `EachConnectionInOnePlace` shows that no thread gets that far. */
  ghost predicate Next(s: State, s': State) {
    exists t, m :: Allowed(s, t, m) && (m.Pop? ==> s.queue != []) && s' == Act(s, t, m)
  }

  ghost predicate IsRun(states: seq<State>, all: set<nat>) {
    states != [] && Initial(states[0], all) && forall i | 0 < i < |states| :: Next(states[i - 1], states[i])
  }

  // --- Who has which connection ----------------------------------------------------------------

  function Grants(threads: seq<Thread>): nat {
    if threads == [] then 0 else Grants(threads[..|threads| - 1]) + Grant(threads[|threads| - 1])
  }

  /** A permit taken before the pop, or not yet released after the push. */
  function Grant(x: Thread): nat {
    if x.Permitted? || x.Pushed? then 1 else 0
  }

  /** How many threads carry connection `c`. */
  function Carried(threads: seq<Thread>, c: nat): nat {
    if threads == [] then 0
    else Carried(threads[..|threads| - 1], c) + if threads[|threads| - 1] == Carrying(c) then 1 else 0
  }

  /** How many leases hold connection `c`. */
  function Leased(leases: seq<Lease>, c: nat): nat {
    if leases == [] then 0
    else Leased(leases[..|leases| - 1], c) + if leases[|leases| - 1] == Holding(c) then 1 else 0
  }

  /** How many places connection `c` is in. */
  function Places(s: State, c: nat): nat {
    multiset(s.queue)[c] + Carried(s.threads, c) + Leased(s.leases, c)
  }

  lemma {:induction false} GrantsUpdate(threads: seq<Thread>, t: nat, x: Thread)
    requires t < |threads|
    ensures Grants(threads[t := x]) + Grant(threads[t]) == Grants(threads) + Grant(x)
  {
    var n := |threads| - 1;
    if t == n {
      assert threads[t := x][..n] == threads[..n];
    } else {
      assert threads[t := x][..n] == threads[..n][t := x];
      GrantsUpdate(threads[..n], t, x);
    }
  }

  lemma {:induction false} CarriedUpdate(threads: seq<Thread>, t: nat, x: Thread, c: nat)
    requires t < |threads|
    ensures Carried(threads[t := x], c) + (if threads[t] == Carrying(c) then 1 else 0) ==
            Carried(threads, c) + (if x == Carrying(c) then 1 else 0)
  {
    var n := |threads| - 1;
    if t == n {
      assert threads[t := x][..n] == threads[..n];
    } else {
      assert threads[t := x][..n] == threads[..n][t := x];
      CarriedUpdate(threads[..n], t, x, c);
    }
  }

  lemma {:induction false} LeasedUpdate(leases: seq<Lease>, l: nat, x: Lease, c: nat)
    requires l < |leases|
    ensures Leased(leases[l := x], c) + (if leases[l] == Holding(c) then 1 else 0) ==
            Leased(leases, c) + (if x == Holding(c) then 1 else 0)
  {
    var n := |leases| - 1;
    if l == n {
      assert leases[l := x][..n] == leases[..n];
    } else {
      assert leases[l := x][..n] == leases[..n][l := x];
      LeasedUpdate(leases[..n], l, x, c);
    }
  }

  /** A thread that has pushed a lease's connection back is the only one busy with that lease. */
  ghost predicate ReturnsMatch(s: State) {
    && (forall t | 0 <= t < |s.threads| && s.threads[t].Pushed? ::
          s.threads[t].lease < |s.leases| && s.leases[s.threads[t].lease].Returning?)
    && (forall t, u | 0 <= t < u < |s.threads| && s.threads[t].Pushed? && s.threads[u].Pushed? ::
          s.threads[t].lease != s.threads[u].lease)
  }

  ghost predicate Invariant(s: State, all: set<nat>) {
    && |s.queue| == s.permits + Grants(s.threads)
    && (forall c :: Places(s, c) == if c in all then 1 else 0)
    && ReturnsMatch(s)
  }

  lemma MovePlaces(s: State, t: nat, m: Move, c: nat)
    requires Allowed(s, t, m) && (m.Pop? ==> s.queue != [])
    requires m.ReleasePermit? ==> s.leases[s.threads[t].lease].Returning?
    ensures Places(Act(s, t, m), c) == Places(s, c)
  {
    hide Carried, Leased;
    var s' := Act(s, t, m);
    CarriedUpdate(s.threads, t, s'.threads[t], c);
    match m {
      case TakePermit =>
      case Pop => assert s.queue == [s.queue[0]] + s.queue[1..];
      case Fill(l) => LeasedUpdate(s.leases, l, s'.leases[l], c);
      case Reset(l) => LeasedUpdate(s.leases, l, s'.leases[l], c);
      case ReleasePermit => LeasedUpdate(s.leases, s.threads[t].lease, Vacant, c);
      case MoveLease(from, to) =>
        LeasedUpdate(s.leases, to, s.leases[from], c);
        LeasedUpdate(s.leases[to := s.leases[from]], from, Vacant, c);
    }
  }

  lemma MoveKeeps(s: State, t: nat, m: Move, all: set<nat>)
    requires Invariant(s, all) && Allowed(s, t, m) && (m.Pop? ==> s.queue != [])
    ensures Invariant(Act(s, t, m), all)
  {
    var s' := Act(s, t, m);
    hide Grants, Places;
    GrantsUpdate(s.threads, t, s'.threads[t]);
    forall c ensures Places(s', c) == if c in all then 1 else 0 {
      MovePlaces(s, t, m, c);
    }
  }

  lemma {:induction false} StartCounts(s: State, c: nat)
    requires forall t | 0 <= t < |s.threads| :: s.threads[t].Idle?
    requires forall l | 0 <= l < |s.leases| :: s.leases[l].Vacant?
    ensures Grants(s.threads) == 0 && Carried(s.threads, c) == 0 && Leased(s.leases, c) == 0
    decreases |s.threads| + |s.leases|
  {
    if s.threads != [] {
      StartCounts(s.(threads := s.threads[..|s.threads| - 1]), c);
    } else if s.leases != [] {
      StartCounts(s.(leases := s.leases[..|s.leases| - 1]), c);
    }
  }

  lemma {:induction false} RunKeeps(states: seq<State>, all: set<nat>, n: nat)
    requires IsRun(states, all) && n < |states|
    ensures Invariant(states[n], all)
  {
    if n == 0 {
      StartCounts(states[0], 0);
      forall c ensures Places(states[0], c) == if c in all then 1 else 0 {
        StartCounts(states[0], c);
      }
    } else {
      hide Invariant, Act, Allowed;
      RunKeeps(states, all, n - 1);
      assert Next(states[n - 1], states[n]);
      var s := states[n - 1];
      var t, m :| Allowed(s, t, m) && (m.Pop? ==> s.queue != []) && states[n] == Act(s, t, m);
      MoveKeeps(s, t, m, all);
    }
  }

  /** In every run: each connection is in exactly one place (the queue, one lease, or one thread's hands), the queue
      holds as many as there are permits and threads between permit and pop or between push and release, and a thread
      about to pop always finds one. */
  lemma EachConnectionInOnePlace(states: seq<State>, all: set<nat>, n: nat)
    requires IsRun(states, all) && n < |states|
    ensures var s := states[n];
            && |s.queue| == s.permits + Grants(s.threads)
            && (forall c :: Places(s, c) == if c in all then 1 else 0)
            && (forall t | 0 <= t < |s.threads| && s.threads[t].Permitted? :: s.queue != [])
  {
    RunKeeps(states, all, n);
    var s := states[n];
    hide Grants, Places;
    forall t | 0 <= t < |s.threads| && s.threads[t].Permitted? ensures s.queue != [] {
      GrantsUpdate(s.threads, t, Idle);
    }
  }

  // --- Calls that are not disturbed ------------------------------------------------------------

  /** In a reachable state with a permit available, an acquire that is not disturbed fills its lease with the
      connection at the front of the queue. */
  lemma AcquireAlone(states: seq<State>, all: set<nat>, n: nat, t: nat, l: nat)
    requires IsRun(states, all) && n < |states| && t < |states[n].threads| && l < |states[n].leases|
    requires states[n].threads[t].Idle? && states[n].leases[l].Vacant? && states[n].permits > 0
    ensures var s := states[n];
            s.queue != [] && Allowed(s, t, TakePermit) &&
            var s1 := Act(s, t, TakePermit);
            s1.queue != [] && Allowed(s1, t, Pop) &&
            var s2 := Act(s1, t, Pop);
            Allowed(s2, t, Fill(l)) &&
            Act(s2, t, Fill(l)) == s.(permits := s.permits - 1, queue := s.queue[1..],
                                      leases := s.leases[l := Holding(s.queue[0])])
  {
    EachConnectionInOnePlace(states, all, n);
    var s := states[n];
    assert s.threads[t := Permitted][t := Carrying(s.queue[0])][t := Idle] == s.threads;
  }

  /** A reset that is not disturbed puts the connection at the back of the queue, releases one permit and empties the
      lease. */
  lemma ResetAlone(s: State, t: nat, l: nat)
    requires t < |s.threads| && l < |s.leases| && s.threads[t].Idle? && s.leases[l].Holding?
    ensures Allowed(s, t, Reset(l))
    ensures var s1 := Act(s, t, Reset(l));
            Allowed(s1, t, ReleasePermit) &&
            Act(s1, t, ReleasePermit) == s.(permits := s.permits + 1, queue := s.queue + [s.leases[l].conn],
                                            leases := s.leases[l := Vacant])
  {
    assert s.threads[t := Pushed(l)][t := Idle] == s.threads;
    assert s.leases[l := Returning(s.leases[l].conn)][l := Vacant] == s.leases[l := Vacant];
  }

  /** Moving a lease hands its connection on and leaves the source empty. */
  lemma MoveHandsOn(s: State, t: nat, from: nat, to: nat)
    requires Allowed(s, t, MoveLease(from, to)) && from != to
    ensures var s' := Act(s, t, MoveLease(from, to));
            && s'.leases[to] == s.leases[from] && s'.leases[from].Vacant? && s'.queue == s.queue
            && s'.permits == s.permits && forall l | 0 <= l < |s.leases| && l != from && l != to ::
               s'.leases[l] == s.leases[l]
  {
  }
}
