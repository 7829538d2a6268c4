/** The timers of the job scheduler against an event loop that may delay deliveries: waits
    that are armed, expired but not yet delivered, or aborted; and the callback that cannot
    tell which start armed it. */
module Timers {

  datatype Status = Armed | Expired | Aborted

  /** A wait on the timer of one job; epoch counts the starts, so it names the job set
      that armed the wait. */
  datatype Wait = Wait(index: nat, epoch: nat, status: Status)

  /** jobs and timers are the sizes of those lists; fault records a callback that read
      the job list out of bounds. */
  datatype State = State(jobs: nat, timers: nat, started: bool, epoch: nat, waits: seq<Wait>, fault: bool)

  datatype Event =
    | Start
    | Stop
    | SetJobs(jobs: nat)
    | Register
    | Expire(wait: nat)
    | Deliver(wait: nat, error: bool)

  function Initial(): State { State(0, 0, false, 0, [], false) }

  // ---- steps ----

  /** Cancelling a timer aborts its armed wait; one that has expired stays in the queue. */
  function Cancel(w: Wait): Wait {
    if w.status.Armed? then w.(status := Aborted) else w
  }

  function CancelAll(waits: seq<Wait>): (r: seq<Wait>)
    ensures |r| == |waits| && forall i :: 0 <= i < |r| ==> r[i] == Cancel(waits[i])
  {
    seq(|waits|, i requires 0 <= i < |waits| => Cancel(waits[i]))
  }

  function CancelOn(waits: seq<Wait>, index: nat): (r: seq<Wait>)
    ensures |r| == |waits|
    ensures forall i :: 0 <= i < |r| ==> r[i] == if waits[i].index == index then Cancel(waits[i]) else waits[i]
  {
    seq(|waits|, i requires 0 <= i < |waits| => if waits[i].index == index then Cancel(waits[i]) else waits[i])
  }

  /** expires_after cancels whatever the timer waited for, then a new wait is armed. */
  function ScheduleNext(s: State, index: nat): State {
    if !s.started || index >= s.timers then s
    else s.(waits := CancelOn(s.waits, index) + [Wait(index, s.epoch, Armed)])
  }

  function ArmFrom(s: State, i: nat): State
    requires i <= s.jobs
    decreases s.jobs - i
  {
    if i == s.jobs then s else ArmFrom(ScheduleNext(s.(timers := i + 1), i), i + 1)
  }

  function Without(waits: seq<Wait>, i: nat): seq<Wait>
    requires i < |waits|
  {
    waits[..i] + waits[i + 1..]
  }

  /** The handler: aborted waits and a stopped scheduler are ignored, an error only re-arms. */
  function Callback(s: State, w: Wait, error: bool): State {
    if w.status.Aborted? || !s.started then s
    else if error then ScheduleNext(s, w.index)
    else if w.index >= s.jobs then s.(fault := true)
    else ScheduleNext(s, w.index)
  }

  function Next(s: State, e: Event): State {
    if s.fault then s
    else
      match e
      case Start =>
        if s.started then s else ArmFrom(s.(started := true, epoch := s.epoch + 1, timers := 0), 0)
      case Stop => s.(started := false, timers := 0, waits := CancelAll(s.waits))
      case SetJobs(n) => if s.started then s else s.(jobs := n)
      case Register => s.(jobs := s.jobs + 1)
      case Expire(i) =>
        if i < |s.waits| && s.waits[i].status.Armed? then
          s.(waits := s.waits[i := s.waits[i].(status := Expired)])
        else s
      case Deliver(i, error) =>
        if i < |s.waits| && !s.waits[i].status.Armed? then
          Callback(s.(waits := Without(s.waits, i)), s.waits[i], error)
        else s
  }

  function Run(s: State, events: seq<Event>): State {
    if events == [] then s else Next(Run(s, events[..|events| - 1]), events[|events| - 1])
  }

  // ---- what every run keeps ----

  predicate IsLive(w: Wait) { !w.status.Aborted? }

  ghost predicate Live(waits: seq<Wait>, index: nat) {
    exists k :: 0 <= k < |waits| && waits[k].index == index && IsLive(waits[k])
  }

  /** At most one armed wait per timer, armed by the latest start. */
  ghost predicate ArmedOk(s: State) {
    && (forall k :: 0 <= k < |s.waits| && s.waits[k].status.Armed? ==>
          s.waits[k].index < s.timers && s.waits[k].epoch == s.epoch)
    && (forall k, l :: 0 <= k < l < |s.waits| && s.waits[k].status.Armed? && s.waits[l].status.Armed? ==>
          s.waits[k].index != s.waits[l].index)
  }

  /** No timer is ever lost: each has a wait that will run its callback. */
  ghost predicate AllLive(s: State) {
    forall index: nat :: index < s.timers ==> Live(s.waits, index)
  }

  ghost predicate Inv(s: State) {
    (!s.started ==> s.timers == 0) && s.timers <= s.jobs && ArmedOk(s) && AllLive(s)
  }

  lemma ScheduleKeeps(s: State, index: nat)
    requires s.started && index < s.timers <= s.jobs && ArmedOk(s)
    requires forall i: nat :: i < s.timers && i != index ==> Live(s.waits, i)
    ensures Inv(ScheduleNext(s, index))
  {
    var t := ScheduleNext(s, index);
    var n := |s.waits|;
    forall i: nat | i < t.timers ensures Live(t.waits, i) {
      if i == index {
        assert t.waits[n].index == i && IsLive(t.waits[n]);
      } else {
        assert Live(s.waits, i);
        var k :| 0 <= k < n && s.waits[k].index == i && IsLive(s.waits[k]);
        assert t.waits[k] == s.waits[k];
      }
    }
    assert forall k :: 0 <= k < n && t.waits[k].status.Armed? ==> s.waits[k].status.Armed? && t.waits[k].index != index;
  }

  lemma {:induction false} ArmKeeps(s: State, i: nat)
    requires Inv(s) && s.started && s.timers == i
    ensures var t := ArmFrom(s, i);
      Inv(t) && t.started && t.timers == t.jobs == s.jobs && t.epoch == s.epoch && t.fault == s.fault
    decreases s.jobs - i
  {
    if i < s.jobs {
      var grown := s.(timers := i + 1);
      ScheduleKeeps(grown, i);
      ArmKeeps(ScheduleNext(grown, i), i + 1);
    }
  }

  lemma RemoveKeepsLive(waits: seq<Wait>, i: nat, index: nat)
    requires i < |waits| && Live(waits, index) && (waits[i].index != index || !IsLive(waits[i]))
    ensures Live(Without(waits, i), index)
  {
    var rest := Without(waits, i);
    var k :| 0 <= k < |waits| && waits[k].index == index && IsLive(waits[k]);
    assert rest[if k < i then k else k - 1] == waits[k];
  }

  lemma DeliverKeeps(s: State, i: nat, error: bool)
    requires Inv(s) && !s.fault
    ensures var t := Next(s, Deliver(i, error)); t.fault || Inv(t)
  {
    if i < |s.waits| && !s.waits[i].status.Armed? {
      var w := s.waits[i];
      var s1 := s.(waits := Without(s.waits, i));
      forall index: nat | index < s.timers && (w.index != index || !IsLive(w)) ensures Live(s1.waits, index) {
        RemoveKeepsLive(s.waits, i, index);
      }
      if IsLive(w) && s.started && w.index < s.timers { ScheduleKeeps(s1, w.index); }
    }
  }

  lemma ExpireKeeps(s: State, i: nat)
    requires Inv(s) && !s.fault
    ensures Inv(Next(s, Expire(i)))
  {
    var t := Next(s, Expire(i));
    if i < |s.waits| && s.waits[i].status.Armed? {
      forall index: nat | index < t.timers ensures Live(t.waits, index) {
        assert Live(s.waits, index);
        var k :| 0 <= k < |s.waits| && s.waits[k].index == index && IsLive(s.waits[k]);
        assert t.waits[k].index == index && IsLive(t.waits[k]);
      }
    }
  }

  lemma NextKeeps(s: State, e: Event)
    requires Inv(s) && !s.fault
    ensures Next(s, e).fault || Inv(Next(s, e))
  {
    match e
    case Start =>
      if !s.started {
        assert forall k :: 0 <= k < |s.waits| ==> !s.waits[k].status.Armed?;
        ArmKeeps(s.(started := true, epoch := s.epoch + 1, timers := 0), 0);
      }
    case Expire(i) => ExpireKeeps(s, i);
    case Deliver(i, error) => DeliverKeeps(s, i, error);
    case _ =>
  }

  /** Whatever the event loop does, short of a fault: no timer is lost, none is armed
      twice, and none is armed while the scheduler is stopped. */
  lemma {:induction false} NoTimerLost(events: seq<Event>)
    ensures var s := Run(Initial(), events); s.fault || Inv(s)
  {
    if events != [] {
      NoTimerLost(events[..|events| - 1]);
      var s := Run(Initial(), events[..|events| - 1]);
      if !s.fault { NextKeeps(s, events[|events| - 1]); }
    }
  }

  // ---- runs in which nothing expired waits across a stop ----

  /** No expired wait is still to be delivered. */
  predicate Quiet(s: State) {
    forall k :: 0 <= k < |s.waits| ==> !s.waits[k].status.Expired?
  }

  /** Every stop happens in such a state. */
  predicate QuietStops(s: State, events: seq<Event>) {
    events != [] ==>
      && QuietStops(s, events[..|events| - 1])
      && (events[|events| - 1].Stop? ==> Quiet(Run(s, events[..|events| - 1])))
  }

  /** All live waits are of the latest start, and each timer has exactly one. */
  ghost predicate FreshWaits(s: State) {
    && (forall k :: 0 <= k < |s.waits| && IsLive(s.waits[k]) ==>
          s.started && s.waits[k].index < s.timers && s.waits[k].epoch == s.epoch)
    && (forall k, l :: 0 <= k < l < |s.waits| && IsLive(s.waits[k]) && IsLive(s.waits[l]) ==>
          s.waits[k].index != s.waits[l].index)
  }

  lemma ScheduleFresh(s: State, index: nat)
    requires s.started && index < s.timers && FreshWaits(s)
    requires forall k :: 0 <= k < |s.waits| && s.waits[k].index == index ==> !s.waits[k].status.Expired?
    ensures FreshWaits(ScheduleNext(s, index))
  {
    var t := ScheduleNext(s, index);
    assert forall k :: 0 <= k < |s.waits| && IsLive(t.waits[k]) ==> t.waits[k] == s.waits[k] && t.waits[k].index != index;
  }

  lemma {:induction false} ArmFresh(s: State, i: nat)
    requires s.started && s.timers == i <= s.jobs && FreshWaits(s)
    ensures FreshWaits(ArmFrom(s, i)) && ArmFrom(s, i).fault == s.fault
    decreases s.jobs - i
  {
    if i < s.jobs {
      var grown := s.(timers := i + 1);
      ScheduleFresh(grown, i);
      ArmFresh(ScheduleNext(grown, i), i + 1);
    }
  }

  lemma DeliverFresh(s: State, i: nat, error: bool)
    requires Inv(s) && FreshWaits(s) && !s.fault
    ensures var t := Next(s, Deliver(i, error)); FreshWaits(t) && !t.fault
  {
    if i < |s.waits| && !s.waits[i].status.Armed? {
      var w := s.waits[i];
      var s1 := s.(waits := Without(s.waits, i));
      assert forall k :: 0 <= k < |s1.waits| ==> s1.waits[k] == s.waits[if k < i then k else k + 1];
      if IsLive(w) { ScheduleFresh(s1, w.index); }
    }
  }

  lemma NextFresh(s: State, e: Event)
    requires Inv(s) && FreshWaits(s) && !s.fault && (e.Stop? ==> Quiet(s))
    ensures FreshWaits(Next(s, e)) && !Next(s, e).fault
  {
    match e
    case Start =>
      if !s.started {
        ArmFresh(s.(started := true, epoch := s.epoch + 1, timers := 0), 0);
      }
    case Deliver(i, error) => DeliverFresh(s, i, error);
    case _ =>
  }

  /** Then no callback ever reads past the job list, every live wait is of the current job
      set, and each timer has exactly one. */
  lemma {:induction false} QuietRunsAreFresh(events: seq<Event>)
    requires QuietStops(Initial(), events)
    ensures var s := Run(Initial(), events); !s.fault && Inv(s) && FreshWaits(s)
  {
    if events != [] {
      QuietRunsAreFresh(events[..|events| - 1]);
      var s := Run(Initial(), events[..|events| - 1]);
      NextKeeps(s, events[|events| - 1]);
      NextFresh(s, events[|events| - 1]);
    }
  }

  // ---- exactly when a callback can read past the job list ----

  /** The event loop alone: expiries and deliveries. */
  predicate LoopOnly(events: seq<Event>) {
    forall e :: e in events ==> e.Expire? || e.Deliver?
  }

  ghost predicate InRange(s: State) {
    forall k :: 0 <= k < |s.waits| && s.waits[k].status.Expired? ==> s.waits[k].index < s.jobs
  }

  lemma LoopStepInRange(s: State, e: Event)
    requires Inv(s) && !s.fault && InRange(s) && (e.Expire? || e.Deliver?)
    ensures var t := Next(s, e); !t.fault && Inv(t) && InRange(t)
  {
    NextKeeps(s, e);
  }

  lemma {:induction false} LoopRunInRange(s: State, events: seq<Event>)
    requires Inv(s) && !s.fault && InRange(s) && LoopOnly(events)
    ensures var t := Run(s, events); !t.fault && Inv(t) && InRange(t)
  {
    if events != [] {
      hide Inv, InRange, Next;
      var rest := events[..|events| - 1];
      assert forall e :: e in rest ==> e in events;
      LoopRunInRange(s, rest);
      assert events[|events| - 1] in events;
      LoopStepInRange(Run(s, rest), events[|events| - 1]);
    }
  }

  /** From a running scheduler, the event loop can make a callback read past the job list
      exactly when an undelivered wait, left over from a larger set, is out of range. */
  lemma FaultExactly(s: State)
    requires Inv(s) && !s.fault && s.started
    ensures (exists events :: LoopOnly(events) && Run(s, events).fault) <==> !InRange(s)
  {
    if InRange(s) {
      forall events | LoopOnly(events) ensures !Run(s, events).fault { LoopRunInRange(s, events); }
    } else {
      var k :| 0 <= k < |s.waits| && s.waits[k].status.Expired? && s.waits[k].index >= s.jobs;
      var events := [Deliver(k, false)];
      assert events[..0] == [] && LoopOnly(events);
      assert Run(s, events) == Next(s, Deliver(k, false));
      assert Run(s, events).fault;
    }
  }

  /** Arming adds armed waits and leaves expired ones as they were. */
  lemma {:induction false} ArmLeavesExpired(s: State, i: nat)
    requires i <= s.jobs
    ensures var t := ArmFrom(s, i);
      && |s.waits| <= |t.waits|
      && (forall k :: |s.waits| <= k < |t.waits| ==> !t.waits[k].status.Expired?)
      && (forall k :: 0 <= k < |s.waits| ==>
            (t.waits[k].status.Expired? <==> s.waits[k].status.Expired?) && t.waits[k].index == s.waits[k].index)
    decreases s.jobs - i
  {
    if i < s.jobs { ArmLeavesExpired(ScheduleNext(s.(timers := i + 1), i), i + 1); }
  }

  function Reload(s: State, n: nat): State {
    Next(Next(Next(s, Stop), SetJobs(n)), Start)
  }

  /** The state in which the timers of a reload are armed. */
  function Restarted(s: State, n: nat): State {
    var stopped := Next(Next(s, Stop), SetJobs(n));
    stopped.(started := true, epoch := stopped.epoch + 1, timers := 0)
  }

  lemma ReloadKeeps(s: State, n: nat)
    requires Inv(s) && !s.fault
    ensures var t := Reload(s, n); Inv(t) && t.started && !t.fault && t.jobs == t.timers == n
  {
    NextKeeps(s, Stop);
    ArmKeeps(Restarted(s, n), 0);
  }

  lemma ReloadLeavesExpired(s: State, n: nat)
    requires !s.fault
    ensures var t := Reload(s, n);
      && |s.waits| <= |t.waits|
      && (forall k :: |s.waits| <= k < |t.waits| ==> !t.waits[k].status.Expired?)
      && (forall k :: 0 <= k < |s.waits| ==>
            (t.waits[k].status.Expired? <==> s.waits[k].status.Expired?) && t.waits[k].index == s.waits[k].index)
  {
    var stopped := Next(Next(s, Stop), SetJobs(n));
    assert forall k :: 0 <= k < |stopped.waits| ==> stopped.waits[k] == Cancel(s.waits[k]);
    ArmLeavesExpired(Restarted(s, n), 0);
  }

  /** A reload (stop, swap, start) arms one timer per new job; the event loop can then make
      a callback read past the new job list exactly when, at the time of the reload, an
      expired but undelivered wait has an index beyond it. */
  lemma ReloadFaultsExactly(s: State, n: nat)
    requires Inv(s) && !s.fault
    ensures var t := Reload(s, n); Inv(t) && t.started && !t.fault && t.jobs == t.timers == n
    ensures (exists events :: LoopOnly(events) && Run(Reload(s, n), events).fault)
        <==> (exists k :: 0 <= k < |s.waits| && s.waits[k].status.Expired? && s.waits[k].index >= n)
  {
    ReloadKeeps(s, n);
    ReloadLeavesExpired(s, n);
    hide Inv, Reload, Run, LoopOnly;
    var t := Reload(s, n);
    FaultExactly(t);
    if k :| 0 <= k < |s.waits| && s.waits[k].status.Expired? && s.waits[k].index >= n {
      assert t.waits[k].status.Expired?;
    }
  }

  /** Such a reload is reachable: two jobs, the second timer expires, one job remains. */
  lemma ReloadCanFault()
    ensures var s := Next(Next(Next(Initial(), SetJobs(2)), Start), Expire(1));
      exists events :: LoopOnly(events) && Run(Reload(s, 1), events).fault
  {
    var w0, w1 := Wait(0, 1, Armed), Wait(1, 1, Armed);
    var begun := State(2, 0, true, 1, [], false);
    var one := State(2, 1, true, 1, [w0], false);
    var two := State(2, 2, true, 1, [w0, w1], false);
    assert CancelOn([], 0) == [] && CancelOn([w0], 1) == [w0];
    assert ScheduleNext(begun.(timers := 1), 0) == one by { assert [] + [w0] == [w0]; }
    assert ScheduleNext(one.(timers := 2), 1) == two by { assert [w0] + [w1] == [w0, w1]; }
    assert ArmFrom(two, 2) == two && ArmFrom(one, 1) == two && ArmFrom(begun, 0) == two;
    var s1 := Next(Initial(), SetJobs(2));
    assert Next(s1, Start) == two;
    var s := Next(two, Expire(1));
    NextKeeps(Initial(), SetJobs(2));
    NextKeeps(s1, Start);
    NextKeeps(two, Expire(1));
    assert s.waits[1].status.Expired? && s.waits[1].index == 1;
    ReloadFaultsExactly(s, 1);
  }
}
