/** The bounded, lazily grown connection pool as a protocol between any number of
    threads, one atomic move per statement that touches shared state.

    Shared state is `mutex_`, `freeProviders_`, `createdCount_` and the waiters of
    `available_`. Providers are named by the order in which they were created.
    A run is any interleaving of the moves below, with the adversary choosing when
    a connection fails to open, which waiter `notify_one` wakes, when a waiter
    wakes spuriously, and whether the caller's work throws. */
module Pool {
  import opened Wrappers
  import opened WeightedSum

  /** Where a thread stands inside `RunInTransaction`. */
  datatype Pc =
    | Outside                            // not in a call
    | LockForAcquire                     // blocked on mutex_ on entry to AcquireProvider
    | LoopHead(waited: bool)             // holds mutex_, top of the acquire loop
    | Opening                            // holds mutex_, opening a new connection
    | Counting(p: nat)                   // holds mutex_, createdCount_ raised, process total not yet
    | Taken(p: nat)                      // holds mutex_, about to return the provider
    | Testing                            // holds mutex_, evaluating the wait predicate
    | Asleep                             // inside available_.wait, mutex_ given up
    | Relock                             // woken, must take mutex_ again
    | Running(p: nat)                    // runs the caller's work on the provider
    | LockForRelease(p: nat, threw: bool)
    | Pushing(p: nat, threw: bool)       // holds mutex_, about to push the provider back
    | Unlocking(threw: bool)             // holds mutex_, provider pushed
    | Notifying(threw: bool)             // mutex_ given up, about to call notify_one
  {
    predicate HoldsMutex() {
      LoopHead? || Opening? || Counting? || Taken? || Testing? || Pushing? || Unlocking?
    }

    function Provider(): Option<nat> {
      if Counting? || Taken? || Running? || LockForRelease? || Pushing? then Some(p) else None
    }
  }

  datatype Event =
    | Began(thread: nat, p: nat)
    | Ended(thread: nat, p: nat, threw: bool)

  /** The variables that `mutex_` guards. */
  datatype Shared = Shared(free: seq<nat>, created: nat, waits: nat)

  /** What one pass of the acquire loop decides. */
  datatype Decision = Take(p: nat) | Grow | Wait

  datatype State = State(
    max: nat, mutex: Option<nat>, shared: Shared, pcs: seq<Pc>, history: seq<Event>)

  datatype Move =
    | Call | Lock | Inspect | OpenSucceeds | OpenThrows | Count | Unlock | Test
    | SpuriousWake | Finish(threw: bool) | Push | NotifyOne(sleeper: nat) | NotifyNobody

  // ---- the guarded code ----

  function Bound(maxConnections: int): (max: nat)
    ensures max >= 1
    ensures max == maxConnections || (maxConnections <= 0 && max == 1)
  {
    if maxConnections > 0 then maxConnections else 1
  }

  function Decide(g: Shared, max: nat): Decision {
    if g.free != [] then Take(g.free[|g.free| - 1])
    else if g.created < max then Grow
    else Wait
  }

  function AfterDecision(g: Shared, max: nat): Shared {
    match Decide(g, max)
    case Take(_) => g.(free := g.free[..|g.free| - 1])
    case Grow => g
    case Wait => g.(waits := g.waits + 1)
  }

  function AfterOpen(g: Shared): Shared { g.(created := g.created + 1) }

  function AfterPush(g: Shared, p: nat): Shared { g.(free := g.free + [p]) }

  /** The pool object itself: each method is one critical section, and the
      protocol below moves by the same functions. */
  class PooledTransactionProvider {
    const maxConnections: nat
    var freeProviders: seq<nat>
    var createdCount: nat
    var acquireWaitCount: nat

    function Guarded(): Shared
      reads this
    {
      Shared(freeProviders, createdCount, acquireWaitCount)
    }

    constructor (maxConnections: int)
      ensures this.maxConnections == Bound(maxConnections)
      ensures Guarded() == Shared([], 0, 0)
    {
      this.maxConnections := if maxConnections > 0 then maxConnections else 1;
      freeProviders, createdCount, acquireWaitCount := [], 0, 0;
    }

    method TryAcquire() returns (d: Decision)
      modifies this
      ensures d == Decide(old(Guarded()), maxConnections)
      ensures Guarded() == AfterDecision(old(Guarded()), maxConnections)
    {
      if freeProviders != [] {
        var provider := freeProviders[|freeProviders| - 1];
        freeProviders := freeProviders[..|freeProviders| - 1];
        return Take(provider);
      }
      if createdCount < maxConnections {
        return Grow;
      }
      acquireWaitCount := acquireWaitCount + 1;
      return Wait;
    }

    method ConnectionOpened() returns (p: nat)
      modifies this
      ensures p == old(createdCount)
      ensures Guarded() == AfterOpen(old(Guarded()))
    {
      p := createdCount;
      createdCount := createdCount + 1;
    }

    method ReleaseProvider(p: nat)
      modifies this
      ensures Guarded() == AfterPush(old(Guarded()), p)
    {
      freeProviders := freeProviders + [p];
    }
  }

  // ---- the protocol ----

  function Init(maxConnections: int, threads: nat): State {
    State(Bound(maxConnections), None, Shared([], 0, 0), seq(threads, _ => Outside), [])
  }

  predicate NobodyAsleep(s: State) {
    forall t :: 0 <= t < |s.pcs| ==> !s.pcs[t].Asleep?
  }

  function At(s: State, t: nat, pc: Pc): State
    requires t < |s.pcs|
  {
    s.(pcs := s.pcs[t := pc])
  }

  /** One move of thread t, or None when that move is not enabled. */
  function Do(s: State, t: nat, m: Move): Option<State> {
    if t >= |s.pcs| then None else
    match (s.pcs[t], m)
    case (Outside, Call) => Some(At(s, t, LockForAcquire))
    case (LockForAcquire, Lock) =>
      if s.mutex.Some? then None else Some(At(s, t, LoopHead(false)).(mutex := Some(t)))
    case (LoopHead(_), Inspect) =>
      var g := AfterDecision(s.shared, s.max);
      (match Decide(s.shared, s.max)
       case Take(p) => Some(At(s, t, Taken(p)).(shared := g))
       case Grow => Some(At(s, t, Opening).(shared := g))
       case Wait => Some(At(s, t, Testing).(shared := g)))
    case (Opening, OpenSucceeds) =>
      Some(At(s, t, Counting(s.shared.created)).(shared := AfterOpen(s.shared)))
    case (Opening, OpenThrows) => Some(At(s, t, Outside).(mutex := None))
    case (Counting(p), Count) => Some(At(s, t, Taken(p)))
    case (Taken(p), Unlock) =>
      Some(At(s, t, Running(p)).(mutex := None, history := s.history + [Began(t, p)]))
    case (Testing, Test) =>
      if s.shared.free != [] then Some(At(s, t, LoopHead(true)))
      else Some(At(s, t, Asleep).(mutex := None))
    case (Asleep, SpuriousWake) => Some(At(s, t, Relock))
    case (Relock, Lock) =>
      if s.mutex.Some? then None else Some(At(s, t, Testing).(mutex := Some(t)))
    case (Running(p), Finish(threw)) =>
      Some(At(s, t, LockForRelease(p, threw)).(history := s.history + [Ended(t, p, threw)]))
    case (LockForRelease(p, threw), Lock) =>
      if s.mutex.Some? then None else Some(At(s, t, Pushing(p, threw)).(mutex := Some(t)))
    case (Pushing(p, threw), Push) =>
      Some(At(s, t, Unlocking(threw)).(shared := AfterPush(s.shared, p)))
    case (Unlocking(threw), Unlock) => Some(At(s, t, Notifying(threw)).(mutex := None))
    case (Notifying(_), NotifyOne(w)) =>
      if w < |s.pcs| && s.pcs[w].Asleep? then Some(At(At(s, w, Relock), t, Outside)) else None
    case (Notifying(_), NotifyNobody) =>
      if NobodyAsleep(s) then Some(At(s, t, Outside)) else None
    case _ => None
  }

  /** A schedule is a list of (thread, move); Exec runs it, None if it gets stuck. */
  function Exec(s: State, schedule: seq<(nat, Move)>): Option<State>
    decreases |schedule|
  {
    if schedule == [] then Some(s)
    else match Do(s, schedule[0].0, schedule[0].1)
         case None => None
         case Some(next) => Exec(next, schedule[1..])
  }

  // ---- what is counted ----

  function HoldsThis(p: nat): Pc -> nat { (pc: Pc) => if pc.Provider() == Some(p) then 1 else 0 }
  function HoldsAny(): Pc -> nat { (pc: Pc) => if pc.Provider().Some? then 1 else 0 }
  function OwesNotify(): Pc -> nat { (pc: Pc) => if pc.Unlocking? || pc.Notifying? then 1 else 0 }
  function WokenWaiter(): Pc -> nat {
    (pc: Pc) => if pc.Relock? || pc.Testing? || pc == LoopHead(true) then 1 else 0
  }
  function RunningAny(): Pc -> nat { (pc: Pc) => if pc.Running? then 1 else 0 }
  function CountingAny(): Pc -> nat { (pc: Pc) => if pc.Counting? then 1 else 0 }

  // ---- the invariant ----

  ghost predicate MutexInv(s: State) {
    && (s.mutex.Some? ==> s.mutex.value < |s.pcs|)
    && forall t :: 0 <= t < |s.pcs| ==> (s.pcs[t].HoldsMutex() <==> s.mutex == Some(t))
  }

  /** Every created provider is in exactly one place: free, or held by one call. */
  ghost predicate ConservationInv(s: State) {
    && s.max >= 1
    && s.shared.created <= s.max
    && |s.shared.free| + Sum(HoldsAny(), s.pcs) == s.shared.created
    && forall p: nat :: ProviderOnce(s, p)
  }

  ghost predicate ProviderOnce(s: State, p: nat) {
    multiset(s.shared.free)[p] + Sum(HoldsThis(p), s.pcs) == if p < s.shared.created then 1 else 0
  }

  ghost predicate LocalInv(s: State) {
    forall t :: 0 <= t < |s.pcs| ==>
      && (s.pcs[t].Opening? ==> s.shared.free == [] && s.shared.created < s.max)
      && (s.pcs[t] == LoopHead(true) ==> s.shared.free != [])
      && (s.pcs[t].Testing? || s.pcs[t].Asleep? || s.pcs[t].Relock? ==> s.shared.created == s.max)
  }

  /** No lost wakeup: while anybody sleeps, each free provider is matched by a
      notification still to come or by a waiter already woken. */
  ghost predicate WakeupInv(s: State) {
    NobodyAsleep(s)
    || |s.shared.free| <= Sum(OwesNotify(), s.pcs) + Sum(WokenWaiter(), s.pcs)
  }

  ghost predicate Inv(s: State) {
    && MutexInv(s) && ConservationInv(s) && LocalInv(s) && WakeupInv(s) && HistoryInv(s)
  }

  // ---- the history of transactions ----

  /** The thread whose transaction on provider p is still open after h. */
  function OpenOn(h: seq<Event>, p: nat): Option<nat> {
    if h == [] then None
    else
      var e := h[|h| - 1];
      if e.p != p then OpenOn(h[..|h| - 1], p)
      else if e.Began? then Some(e.thread) else None
  }

  /** On each provider, transactions follow one another without overlap. */
  ghost predicate SerialPerProvider(h: seq<Event>) {
    forall i :: 0 <= i < |h| ==> SerialEvent(h, i)
  }

  ghost predicate SerialEvent(h: seq<Event>, i: nat)
    requires i < |h|
  {
    OpenOn(h[..i], h[i].p) == if h[i].Began? then None else Some(h[i].thread)
  }

  ghost predicate HistoryInv(s: State) {
    && SerialPerProvider(s.history)
    && forall p: nat :: RunnerIsOpen(s, p)
  }

  /** The open transaction on p, if any, belongs to the thread that is running on p. */
  ghost predicate RunnerIsOpen(s: State, p: nat) {
    && (OpenOn(s.history, p).Some? ==>
          OpenOn(s.history, p).value < |s.pcs| && s.pcs[OpenOn(s.history, p).value] == Running(p))
    && (forall t :: 0 <= t < |s.pcs| && s.pcs[t] == Running(p) ==> OpenOn(s.history, p) == Some(t))
  }

  lemma SerialAppend(h: seq<Event>, e: Event)
    requires SerialPerProvider(h)
    requires OpenOn(h, e.p) == if e.Began? then None else Some(e.thread)
    ensures SerialPerProvider(h + [e])
    ensures forall p: nat :: OpenOn(h + [e], p) ==
              if p != e.p then OpenOn(h, p) else if e.Began? then Some(e.thread) else None
  {
    var h' := h + [e];
    assert h'[..|h|] == h;
    forall i | 0 <= i < |h'| ensures SerialEvent(h', i) {
      if i < |h| {
        assert SerialEvent(h, i);
        assert h'[..i] == h[..i];
      }
    }
  }

  // ---- every move keeps the invariant ----

  /** Who moves in a move: thread t, and the waiter that notify_one wakes. The moves
      other than Inspect, OpenSucceeds and Push leave the shared variables and every
      provider where they were. */
  lemma Frame(s: State, t: nat, m: Move)
    requires Do(s, t, m).Some?
    ensures t < |s.pcs|
    ensures var s' := Do(s, t, m).value;
      && s'.max == s.max && |s'.pcs| == |s.pcs|
      && s'.pcs == (if m.NotifyOne? then s.pcs[m.sleeper := Relock] else s.pcs)[t := s'.pcs[t]]
      && (forall u :: 0 <= u < |s.pcs| && u != t ==>
            s'.pcs[u] == s.pcs[u] || (s.pcs[u].Asleep? && s'.pcs[u].Relock?))
      && (m.NotifyOne? ==> s.pcs[m.sleeper].Asleep? && m.sleeper != t && s'.shared == s.shared)
      && (m.Inspect? || m.OpenSucceeds? || m.Push? ||
          (s'.shared == s.shared && s'.pcs[t].Provider() == s.pcs[t].Provider()))
  {
  }

  /** How a sum over the threads changes in one move. */
  lemma SumAfter(weight: Pc -> nat, s: State, t: nat, m: Move)
    requires Do(s, t, m).Some? && t < |s.pcs|
    ensures var s' := Do(s, t, m).value;
      |s'.pcs| == |s.pcs|
      && Sum(weight, s'.pcs) + weight(s.pcs[t]) + (if m.NotifyOne? then weight(Asleep) else 0)
         == Sum(weight, s.pcs) + weight(s'.pcs[t]) + (if m.NotifyOne? then weight(Relock) else 0)
  {
    Frame(s, t, m);
    var pc := Do(s, t, m).value.pcs[t];
    if m.NotifyOne? {
      SumUpdate(weight, s.pcs, m.sleeper, Relock);
      SumUpdate(weight, s.pcs[m.sleeper := Relock], t, pc);
    } else {
      SumUpdate(weight, s.pcs, t, pc);
    }
  }

  /** Providers move in three ways only: a free one is taken, a new one is made, and a
      held one is pushed back. */
  lemma ProviderFrame(s: State, t: nat, m: Move)
    requires Do(s, t, m).Some? && t < |s.pcs|
    ensures var s' := Do(s, t, m).value; var before := s.pcs[t].Provider();
      t < |s'.pcs| && var after := s'.pcs[t].Provider();
      || (s'.shared.free == s.shared.free && s'.shared.created == s.shared.created && after == before)
      || (before == None && after.Some? && s.shared.free == s'.shared.free + [after.value]
          && s'.shared.created == s.shared.created)
      || (before == None && after == Some(s.shared.created) && s'.shared.free == s.shared.free
          && s'.shared.created == s.shared.created + 1)
      || (before.Some? && after == None && s'.shared.free == s.shared.free + [before.value]
          && s'.shared.created == s.shared.created)
  {
    var f := s.shared.free;
    if f != [] {
      assert f == f[..|f| - 1] + [f[|f| - 1]];
    }
  }

  lemma ProviderOnceKept(s: State, t: nat, m: Move, p: nat)
    requires Do(s, t, m).Some? && ProviderOnce(s, p)
    ensures ProviderOnce(Do(s, t, m).value, p)
  {
    hide Do, Sum;
    Frame(s, t, m);
    ProviderFrame(s, t, m);
    SumAfter(HoldsThis(p), s, t, m);
  }

  lemma ConservationKept(s: State, t: nat, m: Move)
    requires ConservationInv(s) && LocalInv(s) && Do(s, t, m).Some?
    ensures ConservationInv(Do(s, t, m).value)
  {
    hide Sum;
    Frame(s, t, m);
    SumAfter(HoldsAny(), s, t, m);
    forall p: nat ensures ProviderOnce(Do(s, t, m).value, p) {
      assert ProviderOnce(s, p);
      ProviderOnceKept(s, t, m, p);
    }
  }

  lemma MutexKept(s: State, t: nat, m: Move)
    requires MutexInv(s) && Do(s, t, m).Some?
    ensures MutexInv(Do(s, t, m).value)
  {
  }

  lemma LocalKept(s: State, t: nat, m: Move)
    requires MutexInv(s) && LocalInv(s) && s.shared.created <= s.max && Do(s, t, m).Some?
    ensures LocalInv(Do(s, t, m).value)
  {
  }

  lemma WakeupKept(s: State, t: nat, m: Move)
    requires WakeupInv(s) && Do(s, t, m).Some?
    ensures WakeupInv(Do(s, t, m).value)
  {
    hide Sum;
    Frame(s, t, m);
    SumAfter(OwesNotify(), s, t, m);
    SumAfter(WokenWaiter(), s, t, m);
    var s' := Do(s, t, m).value;
    if !NobodyAsleep(s') && s'.shared.free != [] {
      assert !NobodyAsleep(s) by {
        var u :| 0 <= u < |s'.pcs| && s'.pcs[u].Asleep?;
        assert s.pcs[u].Asleep?;
      }
    }
  }

  /** Two threads never hold the same provider, and none is both free and held. */
  lemma HeldByOne(s: State, t: nat, u: nat)
    requires ConservationInv(s)
    requires t < |s.pcs| && u < |s.pcs|
    requires s.pcs[t].Provider().Some? && s.pcs[t].Provider() == s.pcs[u].Provider()
    ensures t == u
    ensures s.pcs[t].Provider().value !in s.shared.free
    ensures s.pcs[t].Provider().value < s.shared.created
  {
    var p := s.pcs[t].Provider().value;
    assert ProviderOnce(s, p);
    SumAtLeast(HoldsThis(p), s.pcs, t);
    if t < u { SumAtLeastTwo(HoldsThis(p), s.pcs, t, u); }
    if u < t { SumAtLeastTwo(HoldsThis(p), s.pcs, u, t); }
  }

  /** The history grows only when a transaction begins or ends. */
  lemma HistoryFrame(s: State, t: nat, m: Move)
    requires Do(s, t, m).Some? && t < |s.pcs|
    ensures var s' := Do(s, t, m).value; var before := s.pcs[t];
      t < |s'.pcs| &&
      if before.Taken? then
        s'.pcs[t] == Running(before.p) && s'.history == s.history + [Began(t, before.p)]
      else if before.Running? then
        !s'.pcs[t].Running? && m.Finish? && s'.history == s.history + [Ended(t, before.p, m.threw)]
      else !s'.pcs[t].Running? && s'.history == s.history
  {
  }

  lemma HistoryKept(s: State, t: nat, m: Move)
    requires HistoryInv(s) && ConservationInv(s) && Do(s, t, m).Some?
    ensures HistoryInv(Do(s, t, m).value)
  {
    hide Do, Sum, ConservationInv, OpenOn;
    Frame(s, t, m);
    HistoryFrame(s, t, m);
    var s' := Do(s, t, m).value;
    var before := s.pcs[t];
    if before.Taken? {
      assert RunnerIsOpen(s, before.p);
      if OpenOn(s.history, before.p).Some? {
        HeldByOne(s, t, OpenOn(s.history, before.p).value);
      }
      SerialAppend(s.history, Began(t, before.p));
    } else if before.Running? {
      assert RunnerIsOpen(s, before.p);
      SerialAppend(s.history, Ended(t, before.p, m.threw));
    }
    forall p: nat ensures RunnerIsOpen(s', p) {
      assert RunnerIsOpen(s, p);
      forall u | 0 <= u < |s.pcs| && s'.pcs[u] == Running(p) ensures OpenOn(s'.history, p) == Some(u) {
        if u != t && before.Provider() == Some(p) {
          HeldByOne(s, t, u);
        }
      }
    }
  }

  lemma InvInit(maxConnections: int, threads: nat)
    ensures Inv(Init(maxConnections, threads))
  {
    var s := Init(maxConnections, threads);
    SumOfOutside(HoldsAny(), threads);
    forall p: nat ensures ProviderOnce(s, p) && RunnerIsOpen(s, p) {
      SumOfOutside(HoldsThis(p), threads);
    }
  }

  lemma {:induction false} SumOfOutside(weight: Pc -> nat, n: nat)
    requires weight(Outside) == 0
    ensures Sum(weight, seq(n, _ => Outside)) == 0
  {
    if n > 0 {
      assert seq(n, _ => Outside)[1..] == seq(n - 1, _ => Outside);
      SumOfOutside(weight, n - 1);
    }
  }

  lemma InvStep(s: State, t: nat, m: Move)
    requires Inv(s) && Do(s, t, m).Some?
    ensures Inv(Do(s, t, m).value)
    ensures Do(s, t, m).value.max == s.max && |Do(s, t, m).value.pcs| == |s.pcs|
  {
    Frame(s, t, m);
    MutexKept(s, t, m);
    ConservationKept(s, t, m);
    LocalKept(s, t, m);
    WakeupKept(s, t, m);
    HistoryKept(s, t, m);
  }

  lemma {:induction false} InvExec(s: State, schedule: seq<(nat, Move)>)
    requires Inv(s) && Exec(s, schedule).Some?
    ensures Inv(Exec(s, schedule).value)
    ensures Exec(s, schedule).value.max == s.max
    ensures |Exec(s, schedule).value.pcs| == |s.pcs|
    decreases |schedule|
  {
    if schedule != [] {
      InvStep(s, schedule[0].0, schedule[0].1);
      InvExec(Do(s, schedule[0].0, schedule[0].1).value, schedule[1..]);
    }
  }

  // ---- what holds over every run ----

  ghost predicate Reachable(s: State, maxConnections: int, threads: nat) {
    exists schedule :: Exec(Init(maxConnections, threads), schedule) == Some(s)
  }

  lemma InvReachable(s: State, maxConnections: int, threads: nat)
    requires Reachable(s, maxConnections, threads)
    ensures Inv(s) && s.max == Bound(maxConnections) && |s.pcs| == threads
  {
    var schedule :| Exec(Init(maxConnections, threads), schedule) == Some(s);
    InvInit(maxConnections, threads);
    InvExec(Init(maxConnections, threads), schedule);
  }

  /** Conservation: the pool never exceeds its bound, created = free + held, no provider
      is free twice, held twice, or both, and at most `max` transactions run at once. */
  lemma PoolConserved(s: State, maxConnections: int, threads: nat)
    requires Reachable(s, maxConnections, threads)
    ensures s.shared.created <= Bound(maxConnections)
    ensures |s.shared.free| + Sum(HoldsAny(), s.pcs) == s.shared.created
    ensures forall p: nat :: p < s.shared.created <==>
              (p in s.shared.free || exists t :: 0 <= t < |s.pcs| && s.pcs[t].Provider() == Some(p))
    ensures forall i, j :: 0 <= i < j < |s.shared.free| ==> s.shared.free[i] != s.shared.free[j]
    ensures forall t, u :: 0 <= t < u < |s.pcs| && s.pcs[t].Provider().Some? ==>
              s.pcs[t].Provider() != s.pcs[u].Provider()
    ensures forall t :: 0 <= t < |s.pcs| && s.pcs[t].Provider().Some? ==>
              s.pcs[t].Provider().value !in s.shared.free
    ensures Sum(RunningAny(), s.pcs) <= Bound(maxConnections)
  {
    InvReachable(s, maxConnections, threads);
    forall p: nat { SomewhereOnce(s, p); }
    forall i, j | 0 <= i < j < |s.shared.free| ensures s.shared.free[i] != s.shared.free[j] {
      FreeOnce(s, i, j);
    }
    forall t, u | 0 <= t < u < |s.pcs| && s.pcs[t].Provider().Some?
      ensures s.pcs[t].Provider() != s.pcs[u].Provider()
    {
      if s.pcs[t].Provider() == s.pcs[u].Provider() { HeldByOne(s, t, u); }
    }
    forall t | 0 <= t < |s.pcs| && s.pcs[t].Provider().Some? { HeldByOne(s, t, t); }
    SumMonotone(RunningAny(), HoldsAny(), s.pcs);
  }

  lemma SomewhereOnce(s: State, p: nat)
    requires ConservationInv(s)
    ensures p < s.shared.created <==>
      (p in s.shared.free || exists t :: 0 <= t < |s.pcs| && s.pcs[t].Provider() == Some(p))
  {
    assert ProviderOnce(s, p);
    if Sum(HoldsThis(p), s.pcs) > 0 {
      var t := SumPositive(HoldsThis(p), s.pcs);
    }
    forall t | 0 <= t < |s.pcs| && s.pcs[t].Provider() == Some(p) ensures p < s.shared.created {
      HeldByOne(s, t, t);
    }
  }

  lemma FreeOnce(s: State, i: nat, j: nat)
    requires ConservationInv(s) && i < j < |s.shared.free|
    ensures s.shared.free[i] != s.shared.free[j]
  {
    assert ProviderOnce(s, s.shared.free[i]);
    if s.shared.free[i] == s.shared.free[j] { TwiceInSequence(s.shared.free, i, j); }
  }

  lemma TwiceInSequence(f: seq<nat>, i: nat, j: nat)
    requires i < j < |f| && f[i] == f[j]
    ensures multiset(f)[f[i]] >= 2
  {
    assert f == f[..j] + f[j..];
    assert f[i] in f[..j] && f[j] in f[j..] by { assert f[..j][i] == f[i] && f[j..][0] == f[j]; }
  }

  lemma {:induction false} SumMonotone(low: Pc -> nat, high: Pc -> nat, pcs: seq<Pc>)
    requires forall pc :: low(pc) <= high(pc)
    ensures Sum(low, pcs) <= Sum(high, pcs)
  {
    if pcs != [] { SumMonotone(low, high, pcs[1..]); }
  }

  /** No lost wakeup: while a thread sleeps, the pool is fully grown, free providers are
      covered by notifications still owed plus waiters already woken, and some thread
      that is not asleep still holds a provider or is about to act on a free one. */
  lemma NoLostWakeup(s: State, maxConnections: int, threads: nat, sleeper: nat)
    requires Reachable(s, maxConnections, threads)
    requires sleeper < |s.pcs| && s.pcs[sleeper].Asleep?
    ensures s.shared.created == Bound(maxConnections)
    ensures |s.shared.free| <= Sum(OwesNotify(), s.pcs) + Sum(WokenWaiter(), s.pcs)
    ensures exists t :: 0 <= t < |s.pcs| &&
              (s.pcs[t].Provider().Some? || OwesNotify()(s.pcs[t]) > 0 || WokenWaiter()(s.pcs[t]) > 0)
  {
    InvReachable(s, maxConnections, threads);
    if Sum(HoldsAny(), s.pcs) > 0 {
      var t := SumPositive(HoldsAny(), s.pcs);
    } else if Sum(OwesNotify(), s.pcs) > 0 {
      var t := SumPositive(OwesNotify(), s.pcs);
    } else {
      var t := SumPositive(WokenWaiter(), s.pcs);
    }
  }

  /** A connection that fails to open leaves the pool as it was before the call. */
  lemma OpenThrowsChangesNothing(s: State, t: nat)
    requires Inv(s) && Do(s, t, OpenThrows).Some?
    ensures var s' := Do(s, t, OpenThrows).value;
      && s'.shared == s.shared && s'.history == s.history && s'.mutex == None
      && s'.pcs == s.pcs[t := Outside] && s.pcs[t].Provider() == None
  {
  }

  // ---- liveness ----

  /** A move that the pool's own code makes: not the arrival of a new call, and not
      a spurious wakeup. */
  predicate Internal(m: Move) { !m.Call? && !m.SpuriousWake? }

  /** An upper bound on the internal moves a thread can still make before it needs a
      new call or another thread's notification. A sleeper's rank leaves room for one
      wakeup, which the notifier pays for. */
  function Rank(): Pc -> nat {
    (pc: Pc) => match pc
      case Outside => 0
      case Notifying(_) => 3
      case Unlocking(_) => 4
      case Pushing(_, _) => 5
      case LockForRelease(_, _) => 6
      case Running(_) => 7
      case Taken(_) => 8
      case Counting(_) => 9
      case Opening => 10
      case LoopHead(waited) => if waited then 11 else 15
      case Asleep => 12
      case Testing => 13
      case Relock => 14
      case LockForAcquire => 16
  }

  lemma RankStep(s: State, t: nat, m: Move)
    requires LocalInv(s) && Do(s, t, m).Some?
    ensures var s' := Do(s, t, m).value;
      && (Internal(m) ==> Sum(Rank(), s'.pcs) < Sum(Rank(), s.pcs))
      && (m.Call? ==> Sum(Rank(), s'.pcs) == Sum(Rank(), s.pcs) + 16)
      && (m.SpuriousWake? ==> Sum(Rank(), s'.pcs) == Sum(Rank(), s.pcs) + 2)
  {
    hide Sum;
    Frame(s, t, m);
    SumAfter(Rank(), s, t, m);
  }

  function InternalMoves(schedule: seq<(nat, Move)>): nat {
    Sum((e: (nat, Move)) => if Internal(e.1) then 1 else 0, schedule)
  }
  function Calls(schedule: seq<(nat, Move)>): nat {
    Sum((e: (nat, Move)) => if e.1.Call? then 1 else 0, schedule)
  }
  function SpuriousWakes(schedule: seq<(nat, Move)>): nat {
    Sum((e: (nat, Move)) => if e.1.SpuriousWake? then 1 else 0, schedule)
  }

  /** Every schedule is short: the pool makes at most sixteen moves per call, plus two
      per spurious wakeup. No thread spins and no notification is passed on for ever. */
  lemma {:induction false} BoundedWork(s: State, schedule: seq<(nat, Move)>)
    requires Inv(s) && Exec(s, schedule).Some?
    ensures InternalMoves(schedule) + Sum(Rank(), Exec(s, schedule).value.pcs)
         <= Sum(Rank(), s.pcs) + 16 * Calls(schedule) + 2 * SpuriousWakes(schedule)
    decreases |schedule|
  {
    if schedule != [] {
      var (t, m) := schedule[0];
      RankStep(s, t, m);
      InvStep(s, t, m);
      BoundedWork(Do(s, t, m).value, schedule[1..]);
    }
  }

  /** The internal move a thread can make on its own, given a free mutex or its own. */
  function Obvious(s: State, t: nat): Move
    requires t < |s.pcs|
  {
    match s.pcs[t]
    case LoopHead(_) => Inspect
    case Opening => OpenSucceeds
    case Counting(_) => Count
    case Testing => Test
    case Running(_) => Finish(false)
    case Pushing(_, _) => Push
    case Taken(_) => Unlock
    case Unlocking(_) => Unlock
    case Notifying(_) => NotifyNobody
    case _ => Lock
  }

  /** Deadlock freedom: while any call is in progress, some thread inside a call can make
      an internal move, without a new call and without a spurious wakeup. */
  lemma NoDeadlock(s: State, caller: nat) returns (t: nat, m: Move)
    requires Inv(s) && caller < |s.pcs| && !s.pcs[caller].Outside?
    ensures t < |s.pcs| && !s.pcs[t].Outside? && Internal(m) && Do(s, t, m).Some?
  {
    if s.mutex.Some? {
      t := s.mutex.value;
      m := Obvious(s, t);
    } else {
      t := SomebodyAwake(s, caller);
      m := Obvious(s, t);
      if m.NotifyNobody? && !NobodyAsleep(s) {
        var w :| 0 <= w < |s.pcs| && s.pcs[w].Asleep?;
        m := NotifyOne(w);
      }
    }
  }

  lemma SomebodyAwake(s: State, caller: nat) returns (t: nat)
    requires Inv(s) && caller < |s.pcs| && !s.pcs[caller].Outside?
    ensures t < |s.pcs| && !s.pcs[t].Outside? && !s.pcs[t].Asleep?
  {
    if !s.pcs[caller].Asleep? {
      t := caller;
    } else if Sum(HoldsAny(), s.pcs) > 0 {
      t := SumPositive(HoldsAny(), s.pcs);
    } else if Sum(OwesNotify(), s.pcs) > 0 {
      t := SumPositive(OwesNotify(), s.pcs);
    } else {
      t := SumPositive(WokenWaiter(), s.pcs);
    }
  }

  /** Every call completes: from any state the invariant allows, if no further calls
      arrive, every run of internal moves is finite, and any such run that cannot be
      extended has returned every provider and ended every call. */
  lemma EveryCallCompletes(s: State, schedule: seq<(nat, Move)>)
    requires Inv(s) && Exec(s, schedule).Some?
    requires forall e :: e in schedule ==> Internal(e.1)
    ensures |schedule| <= Sum(Rank(), s.pcs)
    ensures var s' := Exec(s, schedule).value;
      (forall t: nat, m: Move :: Internal(m) ==> Do(s', t, m).None?) ==>
        && (forall t :: 0 <= t < |s'.pcs| ==> s'.pcs[t].Outside?)
        && |s'.shared.free| == s'.shared.created
  {
    AllInternal(schedule);
    BoundedWork(s, schedule);
    InvExec(s, schedule);
    var s' := Exec(s, schedule).value;
    if forall t: nat, m: Move :: Internal(m) ==> Do(s', t, m).None? {
      forall c | 0 <= c < |s'.pcs| ensures s'.pcs[c].Outside? {
        if !s'.pcs[c].Outside? {
          var t, m := NoDeadlock(s', c);
        }
      }
      if Sum(HoldsAny(), s'.pcs) > 0 {
        var t := SumPositive(HoldsAny(), s'.pcs);
      }
    }
  }

  lemma {:induction false} AllInternal(schedule: seq<(nat, Move)>)
    requires forall e :: e in schedule ==> Internal(e.1)
    ensures InternalMoves(schedule) == |schedule|
    ensures Calls(schedule) == 0 && SpuriousWakes(schedule) == 0
  {
    if schedule != [] {
      assert schedule[0] in schedule;
      AllInternal(schedule[1..]);
    }
  }

  // ---- a pool of one is a mutex ----

  /** The thread inside the critical section of a plain mutex after h. */
  function Owner(h: seq<Event>): Option<nat> {
    if h == [] then None
    else if h[|h| - 1].Began? then Some(h[|h| - 1].thread) else None
  }

  /** A history that one mutex around the whole transaction would allow: transactions
      one after another, each ended by the thread that began it. */
  ghost predicate MutexHistory(h: seq<Event>) {
    forall i :: 0 <= i < |h| ==>
      Owner(h[..i]) == if h[i].Began? then None else Some(h[i].thread)
  }

  /** Transactions on one provider never overlap; with a bound of one the whole history
      is one that a single mutex produces, and the running thread is its owner. */
  lemma PoolSerializes(s: State, maxConnections: int, threads: nat)
    requires Reachable(s, maxConnections, threads)
    ensures SerialPerProvider(s.history)
    ensures maxConnections <= 1 ==>
      MutexHistory(s.history) && AllOnZero(s.history) && ByThreads(s.history, threads)
    ensures maxConnections <= 1 ==>
      forall t :: 0 <= t < |s.pcs| ==> (s.pcs[t].Running? <==> Owner(s.history) == Some(t))
  {
    InvReachable(s, maxConnections, threads);
    if maxConnections <= 1 {
      var schedule :| Exec(Init(maxConnections, threads), schedule) == Some(s);
      InvInit(maxConnections, threads);
      OnlyProviderZero(Init(maxConnections, threads), schedule);
      forall i | 0 <= i < |s.history|
        ensures Owner(s.history[..i]) == if s.history[i].Began? then None else Some(s.history[i].thread)
      {
        assert SerialEvent(s.history, i);
      }
      assert RunnerIsOpen(s, 0);
      forall t | 0 <= t < |s.pcs| && s.pcs[t].Running? ensures s.pcs[t] == Running(0) {
        HeldByOne(s, t, t);
      }
    }
  }

  ghost predicate AllOnZero(h: seq<Event>) { forall e :: e in h ==> e.p == 0 }

  ghost predicate ByThreads(h: seq<Event>, threads: nat) { forall e :: e in h ==> e.thread < threads }

  lemma {:induction false} OnlyProviderZero(s: State, schedule: seq<(nat, Move)>)
    requires Inv(s) && s.max == 1 && AllOnZero(s.history) && ByThreads(s.history, |s.pcs|)
    requires Exec(s, schedule).Some?
    ensures var h := Exec(s, schedule).value.history; AllOnZero(h) && ByThreads(h, |s.pcs|)
    decreases |schedule|
  {
    if schedule != [] {
      hide Inv, Sum, ConservationInv;
      var (t, m) := schedule[0];
      HistoryFrame(s, t, m);
      if s.pcs[t].Provider().Some? { HeldByOne(s, t, t); }
      InvStep(s, t, m);
      OnlyProviderZero(Do(s, t, m).value, schedule[1..]);
    }
  }

  // ---- all pools of the process ----

  /** Live and destroyed pools with the process-wide connection total. */
  datatype Process = Process(pools: seq<Option<State>>, total: int)

  datatype ProcessMove =
    | Construct(maxConnections: int, threads: nat)
    | Destroy(pool: nat)
    | PoolMove(pool: nat, thread: nat, move: Move)

  /** A pool's share of the total: OnConnectionCreated runs after createdCount_ is raised. */
  function CreatedIn(): Option<State> -> nat {
    (s: Option<State>) => if s.Some? then s.value.shared.created else 0
  }
  function NotYetCounted(): Option<State> -> nat {
    (s: Option<State>) => if s.Some? then Sum(CountingAny(), s.value.pcs) else 0
  }

  function ProcessDo(p: Process, m: ProcessMove): Option<Process> {
    match m
    case Construct(max, threads) => Some(p.(pools := p.pools + [Some(Init(max, threads))]))
    case Destroy(i) =>
      if i < |p.pools| && p.pools[i].Some?
         && forall t :: 0 <= t < |p.pools[i].value.pcs| ==> p.pools[i].value.pcs[t].Outside?
      then Some(Process(p.pools[i := None], p.total - p.pools[i].value.shared.created))
      else None
    case PoolMove(i, t, move) =>
      if i < |p.pools| && p.pools[i].Some? && Do(p.pools[i].value, t, move).Some?
      then Some(Process(p.pools[i := Do(p.pools[i].value, t, move)],
                        p.total + if move.Count? then 1 else 0))
      else None
  }

  function ProcessExec(p: Process, moves: seq<ProcessMove>): Option<Process>
    decreases |moves|
  {
    if moves == [] then Some(p)
    else match ProcessDo(p, moves[0])
         case None => None
         case Some(next) => ProcessExec(next, moves[1..])
  }

  ghost predicate TotalInv(p: Process) {
    && (forall i :: 0 <= i < |p.pools| && p.pools[i].Some? ==> Inv(p.pools[i].value))
    && p.total + Sum(NotYetCounted(), p.pools) == Sum(CreatedIn(), p.pools)
  }

  lemma TotalStep(p: Process, m: ProcessMove)
    requires TotalInv(p) && ProcessDo(p, m).Some?
    ensures TotalInv(ProcessDo(p, m).value)
  {
    match m
    case Construct(max, threads) =>
      InvInit(max, threads);
      SumOfOutside(CountingAny(), threads);
      SumAppend(NotYetCounted(), p.pools, Some(Init(max, threads)));
      SumAppend(CreatedIn(), p.pools, Some(Init(max, threads)));
    case Destroy(i) =>
      SumUpdate(NotYetCounted(), p.pools, i, None);
      SumUpdate(CreatedIn(), p.pools, i, None);
      if Sum(CountingAny(), p.pools[i].value.pcs) > 0 {
        var t := SumPositive(CountingAny(), p.pools[i].value.pcs);
      }
    case PoolMove(i, t, move) =>
      var s := p.pools[i].value;
      InvStep(s, t, move);
      CountStep(s, t, move);
      SumUpdate(NotYetCounted(), p.pools, i, Do(s, t, move));
      SumUpdate(CreatedIn(), p.pools, i, Do(s, t, move));
  }

  lemma CountStep(s: State, t: nat, m: Move)
    requires Do(s, t, m).Some?
    ensures var s' := Do(s, t, m).value;
      s'.shared.created + Sum(CountingAny(), s.pcs)
      == s.shared.created + Sum(CountingAny(), s'.pcs) + if m.Count? then 1 else 0
  {
    hide Sum;
    Frame(s, t, m);
    SumAfter(CountingAny(), s, t, m);
  }

  lemma {:induction false} TotalExec(p: Process, moves: seq<ProcessMove>)
    requires TotalInv(p) && ProcessExec(p, moves).Some?
    ensures TotalInv(ProcessExec(p, moves).value)
    decreases |moves|
  {
    if moves != [] {
      TotalStep(p, moves[0]);
      TotalExec(ProcessDo(p, moves[0]).value, moves[1..]);
    }
  }

  /** Over every run of the process, the total equals the connections of the live pools,
      less those whose opener has not yet reached the counter. */
  lemma ProcessTotal(moves: seq<ProcessMove>)
    requires ProcessExec(Process([], 0), moves).Some?
    ensures var p := ProcessExec(Process([], 0), moves).value;
      && p.total + Sum(NotYetCounted(), p.pools) == Sum(CreatedIn(), p.pools)
      && p.total >= 0
  {
    TotalExec(Process([], 0), moves);
    var p := ProcessExec(Process([], 0), moves).value;
    NotYetCountedAtMostCreated(p.pools);
  }

  lemma {:induction false} NotYetCountedAtMostCreated(pools: seq<Option<State>>)
    requires forall i :: 0 <= i < |pools| && pools[i].Some? ==> Inv(pools[i].value)
    ensures Sum(NotYetCounted(), pools) <= Sum(CreatedIn(), pools)
  {
    if pools != [] {
      if pools[0].Some? {
        SumMonotone(CountingAny(), HoldsAny(), pools[0].value.pcs);
      }
      NotYetCountedAtMostCreated(pools[1..]);
    }
  }
}
