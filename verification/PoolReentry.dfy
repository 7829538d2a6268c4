/** Callers that re-enter the pool: work that runs inside one call of
    `RunInTransaction` and makes another call to the same pool before it returns.

    Each call has its own place in the protocol's list, in the order of starting, so
    the inner call of a piece of work stands after the outer one. `Inner` says for each
    outer call which inner call its work made last. The outer call cannot finish before
    the inner one has returned. */
module PoolReentry {
  import opened Wrappers
  import opened WeightedSum
  import opened Pool

  type Inner = map<nat, nat>

  /** The work of call t is waiting for its inner call to return. */
  predicate Waiting(s: State, w: Inner, t: nat) {
    t in w && w[t] < |s.pcs| && !s.pcs[w[t]].Outside?
  }

  /** A call takes part in nesting, as outer or as inner one. */
  predicate Nests(w: Inner, t: nat) { t in w.Keys || t in w.Values }

  datatype Action = Plain(thread: nat, move: Move) | Enter(outer: nat, inner: nat)

  /** A move of the protocol, or the work of a running call making an inner call. Work
      that waits for an inner call does not finish, and a call that was nested is over
      for good once it returns. */
  predicate May(s: State, w: Inner, e: Action) {
    match e
    case Plain(t, m) =>
      Do(s, t, m).Some? && (m.Finish? ==> !Waiting(s, w, t)) && (m.Call? ==> !Nests(w, t))
    case Enter(t, u) =>
      && t < u < |s.pcs| && s.pcs[t].Running? && !Waiting(s, w, t)
      && s.pcs[u].Outside? && !Nests(w, u)
  }

  function After(s: State, e: Action): State {
    match e
    case Plain(t, m) => if Do(s, t, m).Some? then Do(s, t, m).value else s
    case Enter(_, u) => if Do(s, u, Call).Some? then Do(s, u, Call).value else s
  }

  function AfterInner(w: Inner, e: Action): Inner {
    if e.Enter? then w[e.outer := e.inner] else w
  }

  predicate Run(s: State, w: Inner, actions: seq<Action>)
    decreases |actions|
  {
    actions == [] ||
    (May(s, w, actions[0]) && Run(After(s, actions[0]), AfterInner(w, actions[0]), actions[1..]))
  }

  function Final(s: State, w: Inner, actions: seq<Action>): (State, Inner)
    decreases |actions|
  {
    if actions == [] then (s, w)
    else Final(After(s, actions[0]), AfterInner(w, actions[0]), actions[1..])
  }

  /** A move of the pool's own code: no new call, inner or outer, and no spurious wakeup. */
  predicate Own(e: Action) { e.Plain? && Internal(e.move) }

  // ---- what every run keeps ----

  /** Past the acquiring half of a call. */
  predicate Inside(pc: Pc) {
    pc.Running? || pc.LockForRelease? || pc.Pushing? || pc.Unlocking? || pc.Notifying? || pc.Outside?
  }

  ghost predicate Nested(s: State, w: Inner) {
    forall t :: t in w ==> t < w[t] < |s.pcs| && Inside(s.pcs[t])
  }

  ghost predicate ReentryInv(s: State, w: Inner) { Inv(s) && Nested(s, w) }

  lemma NestedStep(s: State, w: Inner, e: Action)
    requires Nested(s, w) && May(s, w, e)
    ensures Nested(After(s, e), AfterInner(w, e))
  {
    match e
    case Plain(t, m) =>
      Frame(s, t, m);
    case Enter(t, u) =>
  }

  lemma ReentryStep(s: State, w: Inner, e: Action)
    requires ReentryInv(s, w) && May(s, w, e)
    ensures ReentryInv(After(s, e), AfterInner(w, e))
  {
    NestedStep(s, w, e);
    hide Inv, Nested;
    match e
    case Plain(t, m) => InvStep(s, t, m);
    case Enter(_, u) => InvStep(s, u, Call);
  }

  lemma {:induction false} ReentryRun(s: State, w: Inner, actions: seq<Action>)
    requires ReentryInv(s, w) && Run(s, w, actions)
    ensures ReentryInv(Final(s, w, actions).0, Final(s, w, actions).1)
    decreases |actions|
  {
    if actions != [] {
      hide May, After, ReentryInv;
      ReentryStep(s, w, actions[0]);
      ReentryRun(After(s, actions[0]), AfterInner(w, actions[0]), actions[1..]);
    }
  }

  // ---- the deadlock ----

  /** Still trying to get a provider. */
  predicate Acquiring(pc: Pc) {
    pc.LockForAcquire? || pc.LoopHead? || pc.Opening? || pc.Testing? || pc.Asleep? || pc.Relock?
  }

  /** Call t runs work that waits for a call that has no provider yet, or has not given
      its own back. */
  ghost predicate Starved(s: State, w: Inner, t: nat)
    requires t < |s.pcs|
  {
    && s.pcs[t].Running? && t in w && w[t] < |s.pcs|
    && (Acquiring(s.pcs[w[t]]) || s.pcs[w[t]].Provider().Some?)
  }

  /** The pool is full grown, nothing is free, and every provider is held by a call whose
      work waits for another call that acquires or holds one. */
  ghost predicate Doomed(s: State, w: Inner) {
    && s.shared.created == s.max && s.shared.free == []
    && forall t :: 0 <= t < |s.pcs| && s.pcs[t].Provider().Some? ==> Starved(s, w, t)
  }

  lemma DoomedKept(s: State, w: Inner, e: Action)
    requires LocalInv(s) && Doomed(s, w) && May(s, w, e)
    ensures e.Plain? && Doomed(After(s, e), w)
  {
    assert e.Enter? ==> s.pcs[e.outer].Provider().Some?;
    if e.Plain? {
      var s' := After(s, e);
      Frame(s, e.thread, e.move);
      assert s.pcs[e.thread].Provider().Some? ==> Starved(s, w, e.thread);
      forall t | 0 <= t < |s'.pcs| && s'.pcs[t].Provider().Some? ensures Starved(s', w, t) {
        assert Starved(s, w, t);
      }
    }
  }

  lemma DoomedBefore(s: State, w: Inner, e: Action)
    requires LocalInv(s) && Nested(s, w) && May(s, w, e) && Own(e) && Doomed(After(s, e), w)
    ensures Doomed(s, w)
  {
    var s' := After(s, e);
    Frame(s, e.thread, e.move);
    assert s'.pcs[e.thread].Provider().Some? ==> Starved(s', w, e.thread);
    forall t | 0 <= t < |s.pcs| && s.pcs[t].Provider().Some? ensures Starved(s, w, t) {
      assert Starved(s', w, t);
    }
  }

  /** Doom is final: whatever happens next, with new calls and spurious wakeups too, every
      provider stays with a call whose work never finishes. */
  lemma {:induction false} DoomedForever(s: State, w: Inner, actions: seq<Action>)
    requires ReentryInv(s, w) && Doomed(s, w) && Run(s, w, actions)
    ensures Final(s, w, actions).1 == w && Doomed(Final(s, w, actions).0, w)
    decreases |actions|
  {
    if actions != [] {
      DoomedKept(s, w, actions[0]);
      ReentryStep(s, w, actions[0]);
      hide May, After, ReentryInv, Doomed;
      DoomedForever(After(s, actions[0]), AfterInner(w, actions[0]), actions[1..]);
    }
  }

  // ---- a run that cannot go on ----

  ghost predicate Stuck(s: State, w: Inner) {
    forall e: Action :: Own(e) ==> !May(s, w, e)
  }

  ghost predicate AllOver(s: State) {
    forall t :: 0 <= t < |s.pcs| ==> s.pcs[t].Outside?
  }

  lemma StuckMutex(s: State, w: Inner)
    requires MutexInv(s) && Stuck(s, w)
    ensures s.mutex == None
  {
    if s.mutex.Some? {
      var t := s.mutex.value;
      var e := Plain(t, Obvious(s, t));
      assert Own(e) && May(s, w, e);
    }
  }

  lemma StuckShape(s: State, w: Inner, t: nat)
    requires MutexInv(s) && Stuck(s, w) && t < |s.pcs|
    ensures s.pcs[t].Outside? || s.pcs[t].Asleep? || (s.pcs[t].Running? && Waiting(s, w, t))
  {
    StuckMutex(s, w);
    var m := Obvious(s, t);
    if m.NotifyNobody? && !NobodyAsleep(s) {
      var u :| 0 <= u < |s.pcs| && s.pcs[u].Asleep?;
      m := NotifyOne(u);
    }
    assert !May(s, w, Plain(t, m)) by { assert Own(Plain(t, m)); }
  }

  /** Following inner calls from an unfinished one ends at a sleeper. */
  lemma {:induction false} SomebodySleeps(s: State, w: Inner, t: nat) returns (u: nat)
    requires MutexInv(s) && Nested(s, w) && Stuck(s, w) && t < |s.pcs| && !s.pcs[t].Outside?
    ensures u < |s.pcs| && s.pcs[u].Asleep?
    decreases |s.pcs| - t
  {
    StuckShape(s, w, t);
    if s.pcs[t].Asleep? {
      u := t;
    } else {
      u := SomebodySleeps(s, w, w[t]);
    }
  }

  lemma StuckHasNoneFree(s: State, w: Inner, u: nat)
    requires Inv(s) && Stuck(s, w) && u < |s.pcs| && s.pcs[u].Asleep?
    ensures s.shared.free == []
  {
    hide Do, May, Stuck;
    if Sum(OwesNotify(), s.pcs) > 0 {
      var t := SumPositive(OwesNotify(), s.pcs);
      StuckShape(s, w, t);
    }
    if Sum(WokenWaiter(), s.pcs) > 0 {
      var t := SumPositive(WokenWaiter(), s.pcs);
      StuckShape(s, w, t);
    }
  }

  /** A stuck pool has ended every call or is doomed, and never both. */
  lemma StuckExactly(s: State, w: Inner)
    requires ReentryInv(s, w) && Stuck(s, w)
    ensures AllOver(s) <==> !Doomed(s, w)
  {
    if !AllOver(s) {
      var c :| 0 <= c < |s.pcs| && !s.pcs[c].Outside?;
      var u := SomebodySleeps(s, w, c);
      StuckHasNoneFree(s, w, u);
      hide May, Stuck;
      forall t | 0 <= t < |s.pcs| && s.pcs[t].Provider().Some? ensures Starved(s, w, t) {
        StuckShape(s, w, t);
        StuckShape(s, w, w[t]);
      }
    } else if Doomed(s, w) {
      var t := SumPositive(HoldsAny(), s.pcs);
    }
  }

  // ---- the main results ----

  /** Work under way ends by itself: without new calls every run is finite, and doom
      neither comes nor goes. */
  lemma {:induction false} OwnRun(s: State, w: Inner, actions: seq<Action>)
    requires ReentryInv(s, w) && Run(s, w, actions) && forall e :: e in actions ==> Own(e)
    ensures Final(s, w, actions).1 == w
    ensures |actions| + Sum(Rank(), Final(s, w, actions).0.pcs) <= Sum(Rank(), s.pcs)
    ensures Doomed(s, w) <==> Doomed(Final(s, w, actions).0, w)
    decreases |actions|
  {
    if actions != [] {
      var e := actions[0];
      assert Own(e);
      ReentryStep(s, w, e);
      RankStep(s, e.thread, e.move);
      if Doomed(s, w) { DoomedKept(s, w, e); }
      if Doomed(After(s, e), w) { DoomedBefore(s, w, e); }
      hide ReentryInv, Doomed, Sum, Do;
      OwnRun(After(s, e), w, actions[1..]);
    }
  }

  /** When re-entry deadlocks: if no further call is made, every run of the pool's own
      moves is finite, and one that cannot go on has ended every call if and only if, at
      its start, not every provider was held by a call waiting for another one. */
  lemma EndsExactly(s: State, w: Inner, actions: seq<Action>)
    requires ReentryInv(s, w) && Run(s, w, actions) && forall e :: e in actions ==> Own(e)
    ensures |actions| <= Sum(Rank(), s.pcs)
    ensures var s' := Final(s, w, actions).0; Stuck(s', w) ==> (AllOver(s') <==> !Doomed(s, w))
  {
    hide Doomed, Stuck, AllOver, ReentryInv, Sum;
    OwnRun(s, w, actions);
    ReentryRun(s, w, actions);
    if Stuck(Final(s, w, actions).0, w) {
      StuckExactly(Final(s, w, actions).0, w);
    }
  }

  /** The same in every state that any mix of calls, inner calls and moves leads to from a
      new pool. */
  lemma ReachedEndsExactly(maxConnections: int, calls: nat, before: seq<Action>, actions: seq<Action>)
    requires Run(Init(maxConnections, calls), map[], before)
    requires var (s, w) := Final(Init(maxConnections, calls), map[], before);
      Run(s, w, actions) && forall e :: e in actions ==> Own(e)
    ensures var (s, w) := Final(Init(maxConnections, calls), map[], before);
      var s' := Final(s, w, actions).0;
      |actions| <= Sum(Rank(), s.pcs) && (Stuck(s', w) ==> (AllOver(s') <==> !Doomed(s, w)))
  {
    InvInit(maxConnections, calls);
    ReentryRun(Init(maxConnections, calls), map[], before);
    hide Run, Doomed, Stuck, AllOver, ReentryInv;
    var (s, w) := Final(Init(maxConnections, calls), map[], before);
    EndsExactly(s, w, actions);
  }

  /** In a pool of one, every inner call is a deadlock. */
  lemma PoolOfOne(s: State, w: Inner, t: nat, u: nat)
    requires ReentryInv(s, w) && s.max == 1 && May(s, w, Enter(t, u))
    ensures Doomed(After(s, Enter(t, u)), w[t := u])
  {
    SumAtLeast(HoldsAny(), s.pcs, t);
    var s' := After(s, Enter(t, u));
    forall v | 0 <= v < |s'.pcs| && s'.pcs[v].Provider().Some? ensures Starved(s', w[t := u], v) {
      if v < t { SumAtLeastTwo(HoldsAny(), s.pcs, v, t); }
      if t < v { SumAtLeastTwo(HoldsAny(), s.pcs, t, v); }
    }
  }

  /** With fewer waiting calls than connections there is no deadlock. */
  lemma EnoughConnections(s: State, w: Inner)
    requires ReentryInv(s, w) && |set t | t in w && Waiting(s, w, t)| < s.max
    ensures !Doomed(s, w)
  {
    if Doomed(s, w) {
      var waiting := set t | t in w && Waiting(s, w, t);
      forall t | 0 <= t < |s.pcs| && s.pcs[t].Provider().Some? ensures t in waiting {
        assert Starved(s, w, t);
      }
      HoldersAmong(s.pcs, waiting);
    }
  }

  lemma {:induction false} HoldersAmong(pcs: seq<Pc>, among: set<nat>)
    requires forall t :: 0 <= t < |pcs| && pcs[t].Provider().Some? ==> t in among
    ensures Sum(HoldsAny(), pcs) <= |among|
  {
    if pcs != [] {
      var n := |pcs| - 1;
      assert pcs == pcs[..n] + [pcs[n]];
      SumAppend(HoldsAny(), pcs[..n], pcs[n]);
      HoldersAmong(pcs[..n], among - {n});
    }
  }
}
