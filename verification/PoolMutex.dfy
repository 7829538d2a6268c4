/** Every history that a single mutex allows is one of a pool of one: with
    `Pool.PoolSerializes`, the two have exactly the same histories. */
module PoolMutex {
  import opened Wrappers
  import opened Pool

  lemma {:induction false} ExecOneMore(s: State, schedule: seq<(nat, Move)>, t: nat, m: Move)
    requires Exec(s, schedule).Some? && Do(Exec(s, schedule).value, t, m).Some?
    ensures Exec(s, schedule + [(t, m)]) == Do(Exec(s, schedule).value, t, m)
    decreases |schedule|
  {
    hide Do;
    if schedule == [] {
      assert (schedule + [(t, m)])[1..] == [];
    } else {
      ExecOneMore(Do(s, schedule[0].0, schedule[0].1).value, schedule[1..], t, m);
      assert (schedule + [(t, m)])[1..] == schedule[1..] + [(t, m)];
    }
  }

  lemma ReachOneMore(s: State, maxConnections: int, threads: nat, t: nat, m: Move)
    requires Reachable(s, maxConnections, threads) && Do(s, t, m).Some?
    ensures Reachable(Do(s, t, m).value, maxConnections, threads)
  {
    hide Do;
    var schedule :| Exec(Init(maxConnections, threads), schedule) == Some(s);
    ExecOneMore(Init(maxConnections, threads), schedule, t, m);
  }

  function AllOutside(threads: nat): seq<Pc> { seq(threads, _ => Outside) }

  /** The pool after a history, with every call between transactions finished. */
  function Settled(threads: nat, h: seq<Event>): State {
    match Owner(h)
    case Some(t) =>
      State(1, None, Shared([], 1, 0), seq(threads, u => if u == t then Running(0) else Outside), h)
    case None => State(1, None, if h == [] then Shared([], 0, 0) else Shared([0], 1, 0), AllOutside(threads), h)
  }

  lemma BeginOne(maxConnections: int, threads: nat, h: seq<Event>, t: nat)
    requires maxConnections <= 1 && t < threads && Owner(h) == None && Reachable(Settled(threads, h), maxConnections, threads)
    ensures Reachable(Settled(threads, h + [Began(t, 0)]), maxConnections, threads)
  {
    hide Exec, Reachable;
    var s0 := Settled(threads, h);
    var s1 := At(s0, t, LockForAcquire);
    ReachOneMore(s0, maxConnections, threads, t, Call);
    var s2 := At(s1, t, LoopHead(false)).(mutex := Some(t));
    ReachOneMore(s1, maxConnections, threads, t, Lock);
    var s5 := At(s2, t, Taken(0)).(shared := Shared([], 1, 0));
    ReachOneMore(s2, maxConnections, threads, t, Inspect);
    if h == [] {
      var s3 := At(s2, t, Opening);
      assert Do(s2, t, Inspect) == Some(s3);
      ReachOneMore(s3, maxConnections, threads, t, OpenSucceeds);
      var s4 := At(s3, t, Counting(0)).(shared := Shared([], 1, 0));
      ReachOneMore(s4, maxConnections, threads, t, Count);
      assert At(s4, t, Taken(0)).pcs == s5.pcs;
    }
    assert Reachable(s5, maxConnections, threads);
    ReachOneMore(s5, maxConnections, threads, t, Unlock);
    assert Do(s5, t, Unlock).value.pcs == Settled(threads, h + [Began(t, 0)]).pcs;
    assert Do(s5, t, Unlock) == Some(Settled(threads, h + [Began(t, 0)]));
  }

  lemma EndOne(maxConnections: int, threads: nat, h: seq<Event>, t: nat, threw: bool)
    requires maxConnections <= 1 && t < threads && Owner(h) == Some(t) && Reachable(Settled(threads, h), maxConnections, threads)
    ensures Reachable(Settled(threads, h + [Ended(t, 0, threw)]), maxConnections, threads)
  {
    hide Exec, Reachable;
    var s0 := Settled(threads, h);
    ReachOneMore(s0, maxConnections, threads, t, Finish(threw));
    var s1 := At(s0, t, LockForRelease(0, threw)).(history := h + [Ended(t, 0, threw)]);
    assert Do(s0, t, Finish(threw)) == Some(s1);
    GiveBack(maxConnections, threads, s1, t, threw);
    assert s1.pcs[t := Outside] == AllOutside(threads) && [] + [0] == [0];
    assert s1.(shared := AfterPush(s1.shared, 0), pcs := s1.pcs[t := Outside])
        == Settled(threads, h + [Ended(t, 0, threw)]);
  }

  lemma GiveBack(maxConnections: int, threads: nat, s: State, t: nat, threw: bool)
    requires Reachable(s, maxConnections, threads) && t < |s.pcs| && s.pcs[t] == LockForRelease(0, threw)
    requires s.mutex == None && NobodyAsleep(s)
    ensures Reachable(s.(shared := AfterPush(s.shared, 0), pcs := s.pcs[t := Outside]), maxConnections, threads)
  {
    hide Exec, Reachable;
    ReachOneMore(s, maxConnections, threads, t, Lock);
    var s1 := At(s, t, Pushing(0, threw)).(mutex := Some(t));
    ReachOneMore(s1, maxConnections, threads, t, Push);
    var s2 := At(s1, t, Unlocking(threw)).(shared := AfterPush(s.shared, 0));
    ReachOneMore(s2, maxConnections, threads, t, Unlock);
    var s3 := At(s2, t, Notifying(threw)).(mutex := None);
    assert NobodyAsleep(s3);
    ReachOneMore(s3, maxConnections, threads, t, NotifyNobody);
    assert s3.pcs[t := Outside] == s.pcs[t := Outside];
  }

  lemma {:induction false} SettledIsReachable(h: seq<Event>, maxConnections: int, threads: nat)
    requires maxConnections <= 1 && MutexHistory(h) && AllOnZero(h) && ByThreads(h, threads)
    ensures Reachable(Settled(threads, h), maxConnections, threads)
  {
    if h == [] {
      StartIsReachable(maxConnections, threads);
    } else {
      hide Reachable;
      var n := |h| - 1;
      var before, e := h[..n], h[n];
      MutexPrefix(h);
      SettledIsReachable(before, maxConnections, threads);
      hide MutexHistory, Owner, Settled;
      if e.Began? {
        BeginOne(maxConnections, threads, before, e.thread);
      } else {
        EndOne(maxConnections, threads, before, e.thread, e.threw);
      }
    }
  }

  /** Every history that a single mutex allows to these threads is the history of some run
      of a pool of one. */
  lemma EveryMutexHistoryOccurs(h: seq<Event>, maxConnections: int, threads: nat)
    requires maxConnections <= 1 && MutexHistory(h) && AllOnZero(h) && ByThreads(h, threads)
    ensures exists s :: Reachable(s, maxConnections, threads) && s.history == h
  {
    hide Reachable;
    SettledIsReachable(h, maxConnections, threads);
    assert Settled(threads, h).history == h;
  }

  lemma MutexPrefix(h: seq<Event>)
    requires h != [] && MutexHistory(h)
    ensures var before, e := h[..|h| - 1], h[|h| - 1];
      && h == before + [e] && e in h && (forall x :: x in before ==> x in h)
      && MutexHistory(before) && Owner(before) == (if e.Began? then None else Some(e.thread))
      && Owner(h) == (if e.Began? then Some(e.thread) else None)
  {
    hide MutexHistory, Owner;
    ShorterHistory(h);
    OwnerOfLast(h);
    LastEvent(h);
  }

  lemma ShorterHistory(h: seq<Event>)
    requires h != [] && MutexHistory(h)
    ensures MutexHistory(h[..|h| - 1])
  {
    hide Owner;
    var before := h[..|h| - 1];
    forall i | 0 <= i < |before|
      ensures Owner(before[..i]) == if before[i].Began? then None else Some(before[i].thread)
    {
      assert before[..i] == h[..i];
    }
  }

  lemma OwnerOfLast(h: seq<Event>)
    requires h != [] && MutexHistory(h)
    ensures var e := h[|h| - 1];
      && Owner(h[..|h| - 1]) == (if e.Began? then None else Some(e.thread))
      && Owner(h) == (if e.Began? then Some(e.thread) else None)
  {
  }

  lemma LastEvent(h: seq<Event>)
    requires h != []
    ensures h == h[..|h| - 1] + [h[|h| - 1]] && h[|h| - 1] in h && forall x :: x in h[..|h| - 1] ==> x in h
  {
  }

  lemma StartIsReachable(maxConnections: int, threads: nat)
    requires maxConnections <= 1
    ensures Reachable(Settled(threads, []), maxConnections, threads)
  {
    assert Exec(Init(maxConnections, threads), []) == Some(Settled(threads, []));
  }
}
