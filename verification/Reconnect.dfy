/** One pooled slot: `ProductionTransactionProvider` over `DatabaseHelperProd`, against
    an adversary that decides, question by question, whether a connection is open,
    whether a fresh one can be opened, and whether BEGIN, the caller's work and the
    commit succeed. Connections are numbered in the order they were opened. The whole
    call runs under `connectionMutex_`, so calls on one slot follow one another. */
module Reconnect {
  import opened Wrappers

  datatype Question = IsOpen(c: nat) | OpenFresh | Begin(c: nat) | Work(c: nat) | Commit(c: nat)

  /** One answered question, tagged with the call that asked it. */
  datatype Event = Event(call: nat, asked: Question, yes: bool)

  datatype Outcome = Committed | ReconnectFailed | BeginFailed | WorkThrew | CommitFailed

  type Adversary = (Question, nat) -> bool

  /** Current and retired connection, the next connection number, and the log. */
  datatype Slot = Slot(
    current: nat, retired: Option<nat>, nextConnection: nat, calls: nat, log: seq<Event>)

  function Fresh(): Slot { Slot(0, None, 1, 0, []) }

  // ---- the specification of one call ----

  function Answer(adv: Adversary, s: Slot, q: Question): bool { adv(q, |s.log|) }

  function Logged(adv: Adversary, s: Slot, q: Question): Slot {
    s.(log := s.log + [Event(s.calls, q, Answer(adv, s, q))])
  }

  /** ResetConnection: the fresh connection is opened before the swap. */
  function Reset(adv: Adversary, s: Slot): (r: (Slot, bool))
    ensures r.1 == Answer(adv, s, OpenFresh)
    ensures !r.1 ==> r.0.current == s.current && r.0.retired == s.retired && r.0.nextConnection == s.nextConnection
    ensures r.1 ==> r.0.current == s.nextConnection && r.0.retired == Some(s.current) && r.0.nextConnection == s.nextConnection + 1
    ensures r.0.log == s.log + [Event(s.calls, OpenFresh, r.1)] && r.0.calls == s.calls
  {
    var l := Logged(adv, s, OpenFresh);
    if Answer(adv, s, OpenFresh)
    then (l.(retired := Some(l.current), current := l.nextConnection, nextConnection := l.nextConnection + 1), true)
    else (l, false)
  }

  function AfterBegin(adv: Adversary, s: Slot): (Slot, Outcome) {
    var w := Logged(adv, s, Work(s.current));
    if !Answer(adv, s, Work(s.current)) then (w, WorkThrew) else
    var c := Logged(adv, w, Commit(w.current));
    (c, if Answer(adv, w, Commit(w.current)) then Committed else CommitFailed)
  }

  /** BEGIN failed: give up if the connection is still open, otherwise one fresh
      connection and one more BEGIN. */
  function AfterFailedBegin(adv: Adversary, s: Slot): (Slot, Outcome) {
    var o := Logged(adv, s, IsOpen(s.current));
    if Answer(adv, s, IsOpen(s.current)) then (o, BeginFailed) else
    var (r, ok) := Reset(adv, o);
    if !ok then (r, ReconnectFailed) else
    var b := Logged(adv, r, Begin(r.current));
    if Answer(adv, r, Begin(r.current)) then AfterBegin(adv, b) else (b, BeginFailed)
  }

  function AfterCheck(adv: Adversary, s: Slot): (Slot, Outcome) {
    var b := Logged(adv, s, Begin(s.current));
    if Answer(adv, s, Begin(s.current)) then AfterBegin(adv, b) else AfterFailedBegin(adv, b)
  }

  /** The check on entry: a connection known to be closed is replaced first. */
  function EnsureOpen(adv: Adversary, s: Slot): (Slot, bool) {
    var o := Logged(adv, s, IsOpen(s.current));
    if Answer(adv, s, IsOpen(s.current)) then (o, true) else Reset(adv, o)
  }

  /** RunInTransaction, with connectionMutex_ held. */
  function RunLocked(adv: Adversary, s: Slot): (Slot, Outcome) {
    var (checked, ok) := EnsureOpen(adv, s);
    if ok then AfterCheck(adv, checked) else (checked, ReconnectFailed)
  }

  function Run(adv: Adversary, s: Slot): (Slot, Outcome) {
    var (after, outcome) := RunLocked(adv, s);
    (after.(calls := after.calls + 1), outcome)
  }

  // ---- the objects ----

  class ProductionTransactionProvider {
    const adversary: Adversary
    var connection: nat
    var retiredConnection: Option<nat>
    var nextConnection: nat
    var calls: nat
    var log: seq<Event>

    function View(): Slot
      reads this
    {
      Slot(connection, retiredConnection, nextConnection, calls, log)
    }

    constructor (adversary: Adversary)
      ensures this.adversary == adversary && View() == Fresh()
    {
      this.adversary := adversary;
      connection, retiredConnection, nextConnection, calls, log := 0, None, 1, 0, [];
    }

    method Ask(q: Question) returns (yes: bool)
      modifies this`log
      ensures yes == Answer(adversary, old(View()), q)
      ensures View() == Logged(adversary, old(View()), q)
    {
      yes := adversary(q, |log|);
      log := log + [Event(calls, q, yes)];
    }

    method ResetConnection() returns (ok: bool)
      modifies this
      ensures (View(), ok) == Reset(adversary, old(View()))
    {
      ok := Ask(OpenFresh);
      if !ok { return; }
      retiredConnection := Some(connection);
      connection := nextConnection;
      nextConnection := nextConnection + 1;
    }

    method WorkAndCommit() returns (outcome: Outcome)
      modifies this
      ensures (View(), outcome) == AfterBegin(adversary, old(View()))
    {
      var ran := Ask(Work(connection));
      if !ran { return WorkThrew; }
      var committed := Ask(Commit(connection));
      return if committed then Committed else CommitFailed;
    }

    method RunInTransaction() returns (outcome: Outcome)
      modifies this
      ensures (View(), outcome) == Run(adversary, old(View()))
      ensures old(log) <= log && CallOf(log[|old(log)|..], old(connection), old(calls), outcome)
    {
      RunAsks(adversary, View());
      outcome := RunHoldingMutex();
      calls := calls + 1;
    }

    /** The body of RunInTransaction, with connectionMutex_ held. */
    method RunHoldingMutex() returns (outcome: Outcome)
      modifies this
      ensures (View(), outcome) == RunLocked(adversary, old(View()))
    {
      var isOpen := Ask(IsOpen(connection));
      if !isOpen {
        var reset := ResetConnection();
        if !reset { return ReconnectFailed; }
      }
      var begun := Ask(Begin(connection));
      if !begun {
        var stillOpen := Ask(IsOpen(connection));
        if stillOpen { return BeginFailed; }
        var reset := ResetConnection();
        if !reset { return ReconnectFailed; }
        begun := Ask(Begin(connection));
        if !begun { return BeginFailed; }
      }
      outcome := WorkAndCommit();
    }
  }

  // ---- what a log may look like ----

  /** The connection in place after the events of log: each successful open replaces it. */
  function CurrentAfter(log: seq<Event>): nat {
    if log == [] then 0
    else CurrentAfter(log[..|log| - 1])
         + if log[|log| - 1].asked.OpenFresh? && log[|log| - 1].yes then 1 else 0
  }

  /** What may stand at position i of a log, judged from the events before it:
      statements go to the connection then in place; the work runs only right after a
      BEGIN that succeeded on that connection, and the commit only right after work
      that returned normally. */
  ghost predicate Proper(log: seq<Event>, i: nat)
    requires i < |log|
  {
    match log[i].asked
    case OpenFresh => i > 0 && log[i - 1] == Event(log[i].call, IsOpen(CurrentAfter(log[..i])), false)
    case IsOpen(c) => c == CurrentAfter(log[..i])
    case Begin(c) => c == CurrentAfter(log[..i])
    case Work(c) => c == CurrentAfter(log[..i]) && i > 0 && log[i - 1] == Event(log[i].call, Begin(c), true)
    case Commit(c) => c == CurrentAfter(log[..i]) && i > 0 && log[i - 1] == Event(log[i].call, Work(c), true)
  }

  ghost predicate ProperLog(log: seq<Event>) {
    forall i :: 0 <= i < |log| ==> Proper(log, i)
  }

  function WorkRuns(log: seq<Event>, call: nat): nat {
    if log == [] then 0
    else WorkRuns(log[..|log| - 1], call)
         + if log[|log| - 1].asked.Work? && log[|log| - 1].call == call then 1 else 0
  }

  ghost predicate SlotInv(s: Slot) {
    && ProperLog(s.log)
    && s.current == CurrentAfter(s.log)
    && s.nextConnection == s.current + 1
    && s.retired == (if s.current == 0 then None else Some(s.current - 1))
  }

  lemma ProperAppend(log: seq<Event>, e: Event, k: nat)
    requires ProperLog(log) && Proper(log + [e], |log|)
    ensures ProperLog(log + [e])
    ensures CurrentAfter(log + [e]) == CurrentAfter(log) + if e.asked.OpenFresh? && e.yes then 1 else 0
    ensures WorkRuns(log + [e], k)
              == WorkRuns(log, k) + if e.asked.Work? && e.call == k then 1 else 0
  {
    var log' := log + [e];
    assert log'[..|log|] == log;
    forall i | 0 <= i < |log'| ensures Proper(log', i) {
      if i < |log| {
        assert Proper(log, i);
        assert log'[..i] == log[..i];
      }
    }
  }

  lemma LoggedKeeps(adv: Adversary, s: Slot, q: Question, k: nat)
    requires SlotInv(s) && !q.OpenFresh?
    requires var log' := s.log + [Event(s.calls, q, Answer(adv, s, q))]; Proper(log', |s.log|)
    ensures SlotInv(Logged(adv, s, q))
    ensures WorkRuns(Logged(adv, s, q).log, k)
              == WorkRuns(s.log, k) + if q.Work? && k == s.calls then 1 else 0
  {
    ProperAppend(s.log, Event(s.calls, q, Answer(adv, s, q)), k);
  }

  lemma AskKeeps(adv: Adversary, s: Slot, q: Question, k: nat)
    requires SlotInv(s) && (q == IsOpen(s.current) || q == Begin(s.current))
    ensures SlotInv(Logged(adv, s, q))
    ensures WorkRuns(Logged(adv, s, q).log, k) == WorkRuns(s.log, k)
  {
    assert (s.log + [Event(s.calls, q, Answer(adv, s, q))])[..|s.log|] == s.log;
    LoggedKeeps(adv, s, q, k);
  }

  lemma ResetKeeps(adv: Adversary, s: Slot, k: nat)
    requires SlotInv(s) && s.log != []
    requires s.log[|s.log| - 1] == Event(s.calls, IsOpen(s.current), false)
    ensures SlotInv(Reset(adv, s).0)
    ensures WorkRuns(Reset(adv, s).0.log, k) == WorkRuns(s.log, k)
  {
    var e := Event(s.calls, OpenFresh, Answer(adv, s, OpenFresh));
    assert (s.log + [e])[..|s.log|] == s.log;
    ProperAppend(s.log, e, k);
  }

  lemma AfterBeginKeeps(adv: Adversary, s: Slot, k: nat)
    requires SlotInv(s) && s.log != []
    requires s.log[|s.log| - 1] == Event(s.calls, Begin(s.current), true)
    ensures SlotInv(AfterBegin(adv, s).0) && AfterBegin(adv, s).0.calls == s.calls
    ensures AfterBegin(adv, s).0.log != [] && WorkStarted(AfterBegin(adv, s).1)
    ensures AfterBegin(adv, s).0.current == s.current
    ensures WorkRuns(AfterBegin(adv, s).0.log, k)
              == WorkRuns(s.log, k) + if k == s.calls then 1 else 0
    ensures var (s', o) := AfterBegin(adv, s); o == Committed <==> s'.log[|s'.log| - 1] == Event(s.calls, Commit(s.current), true)
  {
    assert (s.log + [Event(s.calls, Work(s.current), Answer(adv, s, Work(s.current)))])[..|s.log|] == s.log;
    LoggedKeeps(adv, s, Work(s.current), k);
    var w := Logged(adv, s, Work(s.current));
    if Answer(adv, s, Work(s.current)) {
      var e := Event(w.calls, Commit(w.current), Answer(adv, w, Commit(w.current)));
      assert (w.log + [e])[..|w.log|] == w.log;
      LoggedKeeps(adv, w, Commit(w.current), k);
    }
  }

  predicate WorkStarted(o: Outcome) { o == Committed || o == WorkThrew || o == CommitFailed }

  lemma AfterFailedBeginKeeps(adv: Adversary, s: Slot, k: nat)
    requires SlotInv(s)
    ensures var (s', o) := AfterFailedBegin(adv, s);
      && SlotInv(s') && s'.calls == s.calls && s'.log != []
      && WorkRuns(s'.log, k) == WorkRuns(s.log, k) + (if k == s.calls && WorkStarted(o) then 1 else 0)
      && (o == Committed <==> s'.log[|s'.log| - 1] == Event(s.calls, Commit(s'.current), true))
  {
    hide SlotInv, WorkRuns, AfterBegin;
    AskKeeps(adv, s, IsOpen(s.current), k);
    var o := Logged(adv, s, IsOpen(s.current));
    if !Answer(adv, s, IsOpen(s.current)) {
      ResetKeeps(adv, o, k);
      var (r, ok) := Reset(adv, o);
      if ok {
        AskKeeps(adv, r, Begin(r.current), k);
        if Answer(adv, r, Begin(r.current)) {
          AfterBeginKeeps(adv, Logged(adv, r, Begin(r.current)), k);
        }
      }
    }
  }

  lemma AfterCheckKeeps(adv: Adversary, s: Slot, k: nat)
    requires SlotInv(s)
    ensures var (s', o) := AfterCheck(adv, s);
      && SlotInv(s') && s'.calls == s.calls && s'.log != []
      && WorkRuns(s'.log, k) == WorkRuns(s.log, k) + (if k == s.calls && WorkStarted(o) then 1 else 0)
      && (o == Committed <==> s'.log[|s'.log| - 1] == Event(s.calls, Commit(s'.current), true))
  {
    AskKeeps(adv, s, Begin(s.current), k);
    var b := Logged(adv, s, Begin(s.current));
    if Answer(adv, s, Begin(s.current)) {
      AfterBeginKeeps(adv, b, k);
    } else {
      AfterFailedBeginKeeps(adv, b, k);
    }
  }

  lemma EnsureOpenKeeps(adv: Adversary, s: Slot, k: nat)
    requires SlotInv(s)
    ensures SlotInv(EnsureOpen(adv, s).0)
    ensures WorkRuns(EnsureOpen(adv, s).0.log, k) == WorkRuns(s.log, k)
  {
    AskKeeps(adv, s, IsOpen(s.current), k);
    if !Answer(adv, s, IsOpen(s.current)) {
      ResetKeeps(adv, Logged(adv, s, IsOpen(s.current)), k);
    }
  }

  /** One call, against any adversary: the caller's work runs once if the outcome says it
      started and not at all otherwise, and the call reports success exactly when its last
      act was a commit that succeeded on the connection now in place. */
  lemma RunKeeps(adv: Adversary, s: Slot, k: nat)
    requires SlotInv(s)
    ensures var (s', o) := Run(adv, s);
      && SlotInv(s') && s'.calls == s.calls + 1 && s'.log != []
      && WorkRuns(s'.log, k) == WorkRuns(s.log, k) + (if k == s.calls && WorkStarted(o) then 1 else 0)
      && (o == Committed <==> s'.log[|s'.log| - 1] == Event(s.calls, Commit(s'.current), true))
  {
    EnsureOpenKeeps(adv, s, k);
    var (checked, ok) := EnsureOpen(adv, s);
    if ok { AfterCheckKeeps(adv, checked, k); }
  }

  /** What a call asks next, by the answer before it; a connection found open leads to a
      BEGIN only on entry. */
  predicate Follows(before: Event, i: nat, next: Event) {
    match next.asked
    case IsOpen(_) => before.asked.Begin? && !before.yes && i <= 3
    case OpenFresh => before.asked.IsOpen? && !before.yes
    case Begin(_) => before.yes && (before.asked.OpenFresh? || (before.asked.IsOpen? && i == 1))
    case Work(_) => before.asked.Begin? && before.yes
    case Commit(_) => before.asked.Work? && before.yes
  }

  /** How a call ends, by its last question and the answer. */
  function OutcomeOf(last: Event): (o: Option<Outcome>) {
    match last.asked
    case Commit(_) => Some(if last.yes then Committed else CommitFailed)
    case Work(_) => if last.yes then None else Some(WorkThrew)
    case Begin(_) => if last.yes then None else Some(BeginFailed)
    case IsOpen(_) => if last.yes then Some(BeginFailed) else None
    case OpenFresh => if last.yes then None else Some(ReconnectFailed)
  }

  ghost predicate StartOfCall(added: seq<Event>, current: nat, call: nat) {
    && added != [] && added[0].asked == IsOpen(current)
    && (forall i :: 0 <= i < |added| ==> added[i].call == call)
    && (forall i :: 0 < i < |added| ==> Follows(added[i - 1], i, added[i]))
  }

  /** The questions of a call follow one another in that order from the check on entry, and
      the last answer is its outcome. */
  ghost predicate CallOf(added: seq<Event>, current: nat, call: nat, outcome: Outcome) {
    StartOfCall(added, current, call) && OutcomeOf(added[|added| - 1]) == Some(outcome)
  }

  /** The slot after part of a call that began in slot s. */
  ghost predicate Sofar(s: Slot, t: Slot) {
    s.log <= t.log && t.calls == s.calls && StartOfCall(t.log[|s.log|..], s.current, s.calls)
  }

  ghost predicate Ended(s: Slot, t: Slot, o: Outcome) {
    s.log <= t.log && CallOf(t.log[|s.log|..], s.current, s.calls, o)
  }

  function Last(s: Slot): Event
    requires s.log != []
  {
    s.log[|s.log| - 1]
  }

  lemma AskMore(s: Slot, t: Slot, u: Slot, e: Event)
    requires Sofar(s, t) && t.log != [] && u.log == t.log + [e] && u.calls == t.calls && e.call == t.calls
    requires |t.log| > |s.log| && Follows(Last(t), |t.log| - |s.log|, e)
    ensures Sofar(s, u) && u.log != [] && Last(u) == e
    ensures OutcomeOf(e).Some? ==> Ended(s, u, OutcomeOf(e).value)
  {
    hide Follows, OutcomeOf;
    var before, added := t.log[|s.log|..], u.log[|s.log|..];
    assert added == before + [e];
    assert before[|before| - 1] == Last(t);
  }

  lemma AfterBeginAsks(adv: Adversary, s: Slot, t: Slot)
    requires Sofar(s, t) && |t.log| > |s.log| && Last(t).asked.Begin? && Last(t).yes
    ensures var (u, o) := AfterBegin(adv, t); Ended(s, u, o)
  {
    hide Ended, Sofar;
    var w := Logged(adv, t, Work(t.current));
    AskMore(s, t, w, Last(w));
    if Last(w).yes {
      var c := Logged(adv, w, Commit(w.current));
      AskMore(s, w, c, Last(c));
    }
  }

  lemma AfterFailedBeginAsks(adv: Adversary, s: Slot, t: Slot)
    requires Sofar(s, t) && |s.log| < |t.log| <= |s.log| + 3 && Last(t).asked.Begin? && !Last(t).yes
    ensures var (u, o) := AfterFailedBegin(adv, t); Ended(s, u, o)
  {
    hide Ended, Sofar, AfterBegin;
    var open := Logged(adv, t, IsOpen(t.current));
    AskMore(s, t, open, Last(open));
    if !Last(open).yes {
      var (r, ok) := Reset(adv, open);
      AskMore(s, open, r, Last(r));
      if ok {
        var b := Logged(adv, r, Begin(r.current));
        AskMore(s, r, b, Last(b));
        if Last(b).yes { AfterBeginAsks(adv, s, b); }
      }
    }
  }

  lemma AfterCheckAsks(adv: Adversary, s: Slot, t: Slot)
    requires Sofar(s, t) && |s.log| < |t.log| <= |s.log| + 2 && Last(t).yes
    requires Last(t).asked.OpenFresh? || (Last(t).asked.IsOpen? && |t.log| == |s.log| + 1)
    ensures var (u, o) := AfterCheck(adv, t); Ended(s, u, o)
  {
    hide Ended, Sofar, AfterBegin, AfterFailedBegin;
    var b := Logged(adv, t, Begin(t.current));
    AskMore(s, t, b, Last(b));
    if Last(b).yes { AfterBeginAsks(adv, s, b); } else { AfterFailedBeginAsks(adv, s, b); }
  }

  /** Against any adversary, the questions of a call come in that order, and the last answer
      tells how it ended. */
  lemma RunAsks(adv: Adversary, s: Slot)
    ensures var (s', o) := Run(adv, s);
      s.log <= s'.log && CallOf(s'.log[|s.log|..], s.current, s.calls, o)
  {
    var open := Logged(adv, s, IsOpen(s.current));
    assert open.log[|s.log|..] == [Last(open)];
    assert Sofar(s, open);
    hide Sofar, AfterCheck;
    if Last(open).yes {
      AfterCheckAsks(adv, s, open);
    } else {
      var (r, ok) := Reset(adv, open);
      AskMore(s, open, r, Last(r));
      if ok { AfterCheckAsks(adv, s, r); }
    }
  }

  /** The slot after n calls. */
  function Life(adv: Adversary, n: nat): Slot {
    if n == 0 then Fresh() else Run(adv, Life(adv, n - 1)).0
  }

  lemma {:induction false} LifeKeeps(adv: Adversary, n: nat)
    ensures SlotInv(Life(adv, n)) && Life(adv, n).calls == n
  {
    if n > 0 {
      hide Run, SlotInv;
      LifeKeeps(adv, n - 1);
      RunKeeps(adv, Life(adv, n - 1), 0);
    }
  }

  lemma {:induction false} WorkRunsOnce(adv: Adversary, n: nat, k: nat)
    ensures WorkRuns(Life(adv, n).log, k) == if k < n && WorkStarted(Run(adv, Life(adv, k)).1) then 1 else 0
  {
    hide Run, SlotInv, WorkRuns, Life;
    if n == 0 {
      NoWorkYet(adv, k);
    } else {
      LifeStep(adv, n);
      WorkRunsOnce(adv, n - 1, k);
      LifeKeeps(adv, n - 1);
      RunKeeps(adv, Life(adv, n - 1), k);
    }
  }

  lemma LifeStep(adv: Adversary, n: nat)
    requires n > 0
    ensures Life(adv, n) == Run(adv, Life(adv, n - 1)).0
  {
  }

  lemma NoWorkYet(adv: Adversary, k: nat)
    ensures WorkRuns(Life(adv, 0).log, k) == 0
  {
  }

  /** For every schedule of failures and any number of calls: the log is proper, no call
      runs its work twice, a call whose work ran is one whose outcome says so, and the
      connection replaced last is the one kept alive. */
  lemma NeverRunTwice(adv: Adversary, n: nat)
    ensures var s := Life(adv, n);
      && ProperLog(s.log) && s.calls == n
      && (forall k: nat :: WorkRuns(s.log, k)
            == if k < n && WorkStarted(Run(adv, Life(adv, k)).1) then 1 else 0)
      && s.current == CurrentAfter(s.log)
      && s.retired == (if s.current == 0 then None else Some(s.current - 1))
  {
    hide Run, WorkRuns, CurrentAfter, ProperLog, Life;
    LifeKeeps(adv, n);
    forall k: nat
      ensures WorkRuns(Life(adv, n).log, k)
           == if k < n && WorkStarted(Run(adv, Life(adv, k)).1) then 1 else 0
    {
      WorkRunsOnce(adv, n, k);
    }
  }

  /** A reset that fails keeps the old connection in place, and ends the call with the
      work not run. */
  lemma FailedResetKeepsConnection(adv: Adversary, s: Slot)
    requires SlotInv(s) && Run(adv, s).1 == ReconnectFailed
    ensures var s' := Run(adv, s).0;
      && WorkRuns(s'.log, s.calls) == WorkRuns(s.log, s.calls)
      && s'.log[|s'.log| - 1] == Event(s.calls, OpenFresh, false)
      && s'.current == CurrentAfter(s'.log[..|s'.log| - 1])
  {
    RunKeeps(adv, s, s.calls);
  }

  /** Recovery: when fresh connections open and accept BEGIN, and a BEGIN fails on the
      current connection only if that connection has died, the work is run. */
  lemma DeadConnectionRecovers(adv: Adversary, s: Slot)
    requires SlotInv(s)
    requires forall k: nat :: adv(OpenFresh, k)
    requires forall c: nat, k: nat :: c >= s.nextConnection ==> adv(Begin(c), k)
    requires forall k: nat :: !adv(Begin(s.current), k) ==> !adv(IsOpen(s.current), k + 1)
    ensures WorkStarted(Run(adv, s).1)
    ensures WorkRuns(Run(adv, s).0.log, s.calls) == WorkRuns(s.log, s.calls) + 1
  {
    RunKeeps(adv, s, s.calls);
  }
}
