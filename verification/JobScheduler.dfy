/** The job set and its sessions: one client per target, logged in once per reload, and
    the refresh that stops, swaps, re-authenticates and restarts. What the transport
    delivers for each target, exceptions included, and the provider's job lists are
    parameters. */
module JobScheduler {
  import opened Wrappers
  import opened Targets
  import opened ApiClient
  import opened Cookies

  datatype Job = Job(name: string, verb: string, path: string, interval: int, target: Target)

  function Key(job: Job): string { TargetKey(job.target) }

  function KeysOf(jobs: seq<Job>): set<string> { set job | job in jobs :: Key(job) }

  /** The jobs with a positive interval, in order. */
  function Enabled(jobs: seq<Job>): seq<Job> {
    if jobs == [] then []
    else Enabled(jobs[..|jobs| - 1])
         + if jobs[|jobs| - 1].interval > 0 then [jobs[|jobs| - 1]] else []
  }

  /** Exactly the jobs with a positive interval, and all of them in order where all have one. */
  lemma {:induction false} EnabledExactly(jobs: seq<Job>, job: Job)
    ensures job in Enabled(jobs) <==> job in jobs && job.interval > 0
    ensures (forall j :: j in jobs ==> j.interval > 0) ==> Enabled(jobs) == jobs
  {
    if jobs != [] {
      var n := |jobs| - 1;
      EnabledExactly(jobs[..n], job);
      assert jobs == jobs[..n] + [jobs[n]];
    }
  }

  /** Position of the first job of a target, or the number of jobs. */
  function FindTarget(jobs: seq<Job>, key: string): (i: nat)
    ensures i <= |jobs| && (i < |jobs| ==> Key(jobs[i]) == key)
    ensures forall j :: 0 <= j < i ==> Key(jobs[j]) != key
  {
    if jobs == [] || Key(jobs[0]) == key then 0 else 1 + FindTarget(jobs[1..], key)
  }

  /** The first job of a target, whose credentials its login uses. */
  function FirstOf(jobs: seq<Job>, key: string): (job: Job)
    requires key in KeysOf(jobs)
    ensures job in jobs && Key(job) == key
  {
    jobs[FindTarget(jobs, key)]
  }

  /** A client made for this job's target. */
  ghost predicate Serves(c: Client, job: Job) {
    c.baseUrl == StripSlashes(job.target.serverUrl) && c.loginHeaders == job.target.headers
  }

  ghost predicate ServesSome(c: Client, key: string, jobs: seq<Job>) {
    exists job :: job in jobs && Key(job) == key && Serves(c, job)
  }

  lemma ServesOwn(c: Client, job: Job, jobs: seq<Job>)
    requires job in jobs && Serves(c, job)
    ensures ServesSome(c, Key(job), jobs)
  {
  }

  class JobScheduler {
    var jobs: seq<Job>
    var clients: map<string, Client>
    var timers: seq<int>
    var started: bool

    /** Every cached client belongs to the target of a current job. */
    ghost predicate Valid()
      reads this, clients.Values
    {
      && (forall k :: k in clients ==> clients[k].Valid() && ServesSome(clients[k], k, jobs))
      && (forall k, l :: k in clients && l in clients && clients[k] == clients[l] ==> k == l)
      && (forall job :: job in jobs ==> job.interval > 0)
      && (!started ==> timers == [])
    }

    constructor ()
      ensures Valid() && jobs == [] && clients == map[] && !started
    {
      jobs, clients, timers, started := [], map[], [], false;
    }

    method RegisterJob(job: Job)
      requires Valid()
      modifies this`jobs
      ensures Valid() && jobs == old(jobs) + if job.interval > 0 then [job] else []
    {
      if job.interval <= 0 { return; }
      jobs := jobs + [job];
      forall k | k in clients ensures ServesSome(clients[k], k, jobs) {
        var j :| j in old(jobs) && Key(j) == k && Serves(clients[k], j);
        assert j in jobs;
      }
    }

    method RegisterJobs(list: seq<Job>)
      requires Valid()
      modifies this`jobs
      ensures Valid() && jobs == old(jobs) + Enabled(list) && View() == old(View())
    {
      hide Valid;
      for i := 0 to |list|
        invariant Valid() && jobs == old(jobs) + Enabled(list[..i])
      {
        assert list[..i + 1][..i] == list[..i];
        RegisterJob(list[i]);
      }
      assert list[..|list|] == list;
    }

    method SetJobs(list: seq<Job>)
      requires Valid()
      modifies this`jobs, this`clients
      ensures Valid() && jobs == Enabled(list) && clients == map[]
    {
      jobs := [];
      for i := 0 to |list|
        invariant jobs == Enabled(list[..i]) && forall job :: job in jobs ==> job.interval > 0
      {
        assert list[..i + 1][..i] == list[..i];
        if list[i].interval > 0 { jobs := jobs + [list[i]]; }
      }
      assert list[..|list|] == list;
      clients := map[];
    }

    method EnsureClient(job: Job) returns (c: Client)
      requires Valid() && job in jobs
      modifies this`clients
      ensures Valid() && clients == old(clients)[Key(job) := c]
      ensures if Key(job) in old(clients) then c == old(clients)[Key(job)]
              else fresh(c) && Serves(c, job) && c.cookies == map[]
      ensures View() == old(View())[Key(job) := SessionFor(old(View()), job)]
    {
      hide JarInv, Key, ServesSome;
      var key := Key(job);
      if key in clients {
        assert View()[key := SessionFor(View(), job)] == View();
        assert clients[key := clients[key]] == clients;
        return clients[key];
      }
      c := AddClient(job);
    }

    method AddClient(job: Job) returns (c: Client)
      requires Valid() && job in jobs && Key(job) !in clients
      modifies this`clients
      ensures Valid() && clients == old(clients)[Key(job) := c] && fresh(c) && Serves(c, job) && c.cookies == map[]
      ensures View() == old(View())[Key(job) := NewSession(job)]
    {
      hide JarInv, Key, ServesSome;
      c := new Client(job.target.serverUrl, job.target.headers);
      ServesOwn(c, job, jobs);
      assert forall k :: k in clients ==> clients[k] != c;
      clients := clients[Key(job) := c];
    }

    /** The cached clients as values. */
    ghost function View(): Sessions
      reads this, clients.Values
    {
      map k | k in clients ::
        Session(clients[k].baseUrl, clients[k].loginHeaders, clients[k].email, clients[k].password, clients[k].sent)
    }

    ghost function JarOf(key: string): Jar
      requires key in clients
      reads this, clients.Values
    {
      clients[key].cookies
    }

    twostate lemma ClientChanged(key: string)
      requires old(Valid()) && key in old(clients) && unchanged(this) && unchanged(clients.Values - {clients[key]})
      requires clients[key].Valid()
      ensures Valid()
      ensures var c := clients[key]; var before := old(View())[key];
        View() == old(View())[key := Session(before.baseUrl, before.headers, c.email, c.password, c.sent)]
    {
      hide Key, ServesSome, JarInv;
    }

    /** One target's turn: the client is made if needed, and sends one login. */
    method LogIn(job: Job, answer: Answer) returns (threw: bool, ok: bool)
      requires Valid() && job in jobs
      modifies this`clients, clients.Values
      ensures Valid() && threw == answer.TransportThrew? && ok == HasStatus(answer, 200)
      ensures fresh(clients.Values - old(clients).Values)
      ensures View() == LogInOne(old(View()), job)
    {
      hide LoginRequest, StoreAll, Harvested, Valid, View, Key;
      var c := EnsureClient(job);
      threw, ok := LogInClient(Key(job), job.target.email, job.target.password, answer);
    }

    method LogInClient(key: string, email: string, password: string, answer: Answer) returns (threw: bool, ok: bool)
      requires Valid() && key in clients
      modifies clients[key]
      ensures Valid() && threw == answer.TransportThrew? && ok == HasStatus(answer, 200)
      ensures View() == old(View())[key := LoggedIn(old(View())[key], email, password)]
    {
      hide LoginRequest, StoreAll, Harvested, JarInv, ServesSome, Key;
      threw, ok := clients[key].Login(email, password, answer);
      ClientChanged(key);
    }

    /** One login per distinct target, up to the first whose transport throws: that ends
        the call. */
    method AuthenticateTargets(answer: string -> Answer) returns (threw: bool, allOk: bool)
      requires Valid()
      modifies this`clients, clients.Values
      ensures Valid() && threw == Throws(jobs, answer)
      ensures !threw ==> allOk == forall k :: k in KeysOf(jobs) ==> HasStatus(answer(k), 200)
      ensures fresh(clients.Values - old(clients).Values)
      ensures View() == LogInAll(old(View()), Reached(jobs, answer))
    {
      hide Key, Valid, LogInOne, View, KeysOf;
      NoKeys();
      threw, allOk := false, true;
      var attempted: set<string> := {};
      for i := 0 to |jobs|
        invariant Valid() && jobs == old(jobs) && attempted == KeysOf(jobs[..i])
        invariant !threw && allOk == forall k :: k in attempted ==> HasStatus(answer(k), 200)
        invariant forall k :: k in attempted ==> answer(k).Responded?
        invariant fresh(clients.Values - old(clients).Values)
        invariant View() == LogInAll(old(View()), jobs[..i])
      {
        var job := jobs[i];
        NextKeys(jobs, i);
        assert jobs[..i + 1][..i] == jobs[..i];
        if Key(job) !in attempted {
          attempted := attempted + {Key(job)};
          var ok;
          threw, ok := LogIn(job, answer(Key(job)));
          if threw {
            ThrowerIs(jobs, answer, i);
            return true, false;
          }
          if !ok { allOk := false; }
        }
      }
      assert jobs[..|jobs|] == jobs;
      NoThrower(jobs, answer);
    }

    /** Runs the first job of this name on its target's session. A transport that throws
        is caught and reported; UnknownJob stands for the exception on an unknown name. No
        other session changes. */
    method RunJobOnce(name: string, first: Answer, login: Answer, second: Answer) returns (result: JobResult)
      requires Valid()
      modifies this`clients, clients.Values
      ensures Valid() && fresh(clients.Values - old(clients).Values)
      ensures result == UnknownJob <==> FindJob(jobs, name) == |jobs|
      ensures result == UnknownJob ==> View() == old(View())
      ensures result != UnknownJob ==>
        var job := jobs[FindJob(jobs, name)]; var before := SessionFor(old(View()), job);
        && result == ResultOf(CallAnswer(before, first, login, second))
        && Key(job) in View() && before.sent < View()[Key(job)].sent
        && View() == old(View())[Key(job) := before.(sent := View()[Key(job)].sent)]
      ensures result != UnknownJob ==>
        var job := jobs[FindJob(jobs, name)]; var before := SessionFor(old(View()), job);
        var jar := if Key(job) in old(clients) then old(JarOf(Key(job))) else map[];
        CallSent(View()[Key(job)].sent, before, jar, JarOf(Key(job)), job, first, login)
      ensures result != UnknownJob && (forall j :: j in jobs ==> Clean(j.target)) ==>
        var job := jobs[FindJob(jobs, name)]; var before := SessionFor(old(View()), job);
        before.baseUrl == StripSlashes(job.target.serverUrl) && before.headers == job.target.headers
      ensures result != UnknownJob ==>
        var job := jobs[FindJob(jobs, name)]; var before := SessionFor(old(View()), job);
        Reports(result, |View()[Key(job)].sent| - |before.sent|, first, login, second)
    {
      hide Valid, CallSent, Clean, View, Key, FindJob;
      var i := FindJob(jobs, name);
      if i == |jobs| { return UnknownJob; }
      PrepareSession(jobs[i]);
      var answer := CallOn(Key(jobs[i]), jobs[i], first, login, second);
      result := ResultOf(answer);
      ghost var job := jobs[i];
      ReportsLast(SessionFor(old(View()), job), JarOf(Key(job)), job, View()[Key(job)].sent, first, login, second);
    }

    /** The job's session is there; on clean targets it is one made for the job's target. */
    method PrepareSession(job: Job)
      requires Valid() && job in jobs
      modifies this`clients
      ensures Valid() && fresh(clients.Values - old(clients).Values) && Key(job) in clients
      ensures Key(job) in old(clients) ==> clients[Key(job)] == old(clients)[Key(job)]
      ensures Key(job) !in old(clients) ==> fresh(clients[Key(job)])
      ensures JarOf(Key(job)) == if Key(job) in old(clients) then old(JarOf(Key(job))) else map[]
      ensures View() == old(View())[Key(job) := SessionFor(old(View()), job)]
      ensures (forall j :: j in jobs ==> Clean(j.target)) ==>
        var before := SessionFor(old(View()), job);
        before.baseUrl == StripSlashes(job.target.serverUrl) && before.headers == job.target.headers
    {
      hide Valid, View, Key, Clean, SessionFor;
      var c := EnsureClient(job);
      if forall j :: j in jobs ==> Clean(j.target) {
        OwnSession(this, job);
        SessionOf(this, Key(job));
      }
    }

    method CallOn(key: string, job: Job, first: Answer, login: Answer, second: Answer) returns (answer: Answer)
      requires Valid() && key in clients
      modifies clients[key]
      ensures Valid() && answer == CallAnswer(old(View())[key], first, login, second)
      ensures key in View() && old(View())[key].sent < View()[key].sent
      ensures View() == old(View())[key := old(View())[key].(sent := View()[key].sent)]
      ensures CallSent(View()[key].sent, old(View())[key], old(JarOf(key)), JarOf(key), job, first, login)
    {
      hide AsksAll, LogsInBetween, JarAfter, LoginRequest, StoreAll, Harvested, JarInv, ServesSome, Key, RequestFor, Lists;
      ghost var orders;
      answer, orders := clients[key].CallEndpoint(job.verb, job.path, "", job.target.headers, first, login, second);
      ClientChanged(key);
    }

    /** Arms one timer per job, in order, with that job's interval. */
    method Start()
      requires Valid()
      modifies this`timers, this`started
      ensures Valid() && started && View() == old(View())
      ensures timers == if old(started) then old(timers) else Intervals(jobs)
    {
      hide Key, ServesSome, JarInv;
      if started { return; }
      started := true;
      timers := [];
      for i := 0 to |jobs|
        invariant Valid() && started && timers == Intervals(jobs[..i])
      {
        assert Intervals(jobs[..i + 1]) == Intervals(jobs[..i]) + [jobs[i].interval];
        timers := timers + [jobs[i].interval];
      }
      assert jobs[..|jobs|] == jobs;
    }

    method Stop()
      requires Valid()
      modifies this`timers, this`started
      ensures Valid() && !started && timers == [] && View() == old(View())
    {
      hide Key, ServesSome, JarInv;
      started := false;
      timers := [];
    }
  }

  datatype JobResult = UnknownJob | Raised | Finished(status: int, success: bool)

  function ResultOf(a: Answer): JobResult {
    match a
    case TransportThrew => Raised
    case Responded(r) => Finished(r.status, 200 <= r.status < 300)
  }

  /** What a call on a session comes to: a 401 is retried after a fresh login when the
      session has credentials. */
  ghost function CallAnswer(s: Session, first: Answer, login: Answer, second: Answer): Answer {
    if !HasStatus(first, 401) || s.email == "" || s.password == "" then first
    else if HasStatus(login, 200) then second
    else if login.TransportThrew? then TransportThrew
    else first
  }

  /** What running a job adds to its session: the job's verb on the job's path of the
      session's server with no body and the job's headers; on a 401 with credentials one
      login with them and, when that is answered 200, the same request with the cookies
      that the login set. */
  ghost predicate CallSent(sent: seq<Request>, before: Session, jar: Jar, after: Jar, job: Job, first: Answer, login: Answer) {
    && before.sent <= sent
    && var added := sent[|before.sent|..];
    && AsksAll(added, before.baseUrl, jar, after, job.verb, job.path, "", job.target.headers)
    && LogsInBetween(added, before.baseUrl, before.email, before.password, before.headers, first, login)
    && JarAfter(jar, after, |added|, login)
  }

  /** The result is that of the last request sent: a failure of the transport, or the answer's
      status, with success for 200 to 299. When the login after a 401 is answered but not
      with 200, it is still the 401. */
  ghost predicate Reports(result: JobResult, requests: int, first: Answer, login: Answer, second: Answer) {
    var last := if requests == 1 then first else if requests == 3 then second
                else if login.TransportThrew? then login else first;
    match result
    case UnknownJob => false
    case Raised => last.TransportThrew?
    case Finished(status, success) => HasStatus(last, status) && (success <==> 200 <= status < 300)
  }

  lemma ReportsLast(before: Session, after: Jar, job: Job, sent: seq<Request>, first: Answer, login: Answer, second: Answer)
    requires exists jar :: CallSent(sent, before, jar, after, job, first, login)
    ensures Reports(ResultOf(CallAnswer(before, first, login, second)), |sent| - |before.sent|, first, login, second)
  {
    hide AsksLogin, Asks, JarAfter;
  }

  function Intervals(jobs: seq<Job>): (r: seq<int>)
    ensures |r| == |jobs| && forall i :: 0 <= i < |r| ==> r[i] == jobs[i].interval
  {
    seq(|jobs|, i requires 0 <= i < |jobs| => jobs[i].interval)
  }

  /** Position of the first job of a name, or the number of jobs. */
  function FindJob(jobs: seq<Job>, name: string): (i: nat)
    ensures i <= |jobs| && (i < |jobs| ==> jobs[i].name == name)
    ensures forall j :: 0 <= j < i ==> jobs[j].name != name
  {
    if jobs == [] || jobs[0].name == name then 0 else 1 + FindJob(jobs[1..], name)
  }

  /** A timer runs its job by name, so it runs that job exactly when no earlier job has the
      same name. */
  lemma TimerRunsItsJob(jobs: seq<Job>, i: nat)
    requires i < |jobs|
    ensures FindJob(jobs, jobs[i].name) == i <==> forall j :: 0 <= j < i ==> jobs[j].name != jobs[i].name
  {
    hide FindJob;
    var found := FindJob(jobs, jobs[i].name);
    assert found <= i;
  }

  /** On clean targets, the session that a job's key finds was made for that very target. */
  lemma OwnSession(js: JobScheduler, job: Job)
    requires js.Valid() && job in js.jobs && Key(job) in js.clients
    requires forall j :: j in js.jobs ==> Clean(j.target)
    ensures Serves(js.clients[Key(job)], job)
  {
    hide TargetKey, Clean;
    var c := js.clients[Key(job)];
    assert ServesSome(c, Key(job), js.jobs);
    var other :| other in js.jobs && Key(other) == Key(job) && Serves(c, other);
    TargetKeyInjective(other.target, job.target);
  }

  lemma SessionOf(js: JobScheduler, key: string)
    requires key in js.clients
    ensures key in js.View()
    ensures js.View()[key].baseUrl == js.clients[key].baseUrl && js.View()[key].headers == js.clients[key].loginHeaders
  {
  }

  // ---- the scheduler over it ----

  class Scheduler {
    const engine: JobScheduler
    const hasProvider: bool
    var jobs: seq<Job>
    var lastJobs: seq<Job>
    var initialized: bool

    ghost predicate Valid()
      reads this, engine, engine.clients.Values
    {
      engine.Valid()
    }

    constructor (fixedJobs: seq<Job>, hasProvider: bool)
      ensures Valid() && fresh(engine) && engine.jobs == [] && engine.clients == map[] && !engine.started
      ensures this.hasProvider == hasProvider && jobs == fixedJobs && lastJobs == [] && !initialized
    {
      engine := new JobScheduler();
      this.hasProvider := hasProvider;
      jobs, lastJobs, initialized := fixedJobs, [], false;
    }

    ghost function View(): SchedulerState
      reads this, engine, engine.clients.Values
    {
      SchedulerState(Engine(engine.jobs, engine.View(), engine.timers, engine.started), lastJobs)
    }

    /** Registers the jobs and leaves what the move leaves of them. */
    method RegisterOwnJobs()
      requires Valid()
      modifies this`jobs, engine`jobs
      ensures Valid() && jobs == Emptied(old(jobs)) && engine.jobs == old(engine.jobs) + Enabled(old(jobs))
      ensures engine.View() == old(engine.View())
    {
      hide Emptied, Enabled, JobScheduler.Valid;
      engine.RegisterJobs(jobs);
      jobs := Emptied(jobs);
    }

    /** Registers the jobs and logs in to each of their targets. A provider that throws
        leaves everything as it was; a login whose transport throws leaves the jobs
        registered and the targets after it without a session. The jobs are moved out of
        the scheduler's own list, so what stays there is emptied. */
    method Initialize(provided: Option<seq<Job>>, answer: string -> Answer) returns (outcome: InitOutcome)
      requires Valid()
      modifies this`jobs, this`lastJobs, this`initialized, engine`jobs, engine`clients, engine.clients.Values
      ensures Valid() && initialized == (old(initialized) || outcome == Initialized)
      ensures outcome == ProviderThrew <==> hasProvider && provided.None?
      ensures outcome == ProviderThrew ==> unchanged(this) && unchanged(engine) && engine.View() == old(engine.View())
      ensures outcome != ProviderThrew ==>
        var list := if hasProvider then provided.value else old(jobs);
        && (hasProvider ==> lastJobs == list) && jobs == Emptied(list)
        && engine.jobs == old(engine.jobs) + Enabled(list)
        && engine.View() == LogInAll(old(engine.View()), Reached(engine.jobs, answer))
        && (outcome == LoginThrew <==> Throws(engine.jobs, answer))
        && (outcome == Initialized <==> forall k :: k in KeysOf(engine.jobs) ==> HasStatus(answer(k), 200))
    {
      hide KeysOf, LogInAll, Key, JobScheduler.Valid, JobScheduler.View, Enabled, Emptied, Reached, Throws;
      if hasProvider {
        if provided.None? { return ProviderThrew; }
        jobs := provided.value;
        lastJobs := jobs;
      }
      outcome := RegisterAndLogIn(answer);
    }

    method RegisterAndLogIn(answer: string -> Answer) returns (outcome: InitOutcome)
      requires Valid()
      modifies this`jobs, this`initialized, engine`jobs, engine`clients, engine.clients.Values
      ensures Valid() && initialized == (old(initialized) || outcome == Initialized)
      ensures outcome != ProviderThrew && jobs == Emptied(old(jobs))
      ensures engine.jobs == old(engine.jobs) + Enabled(old(jobs))
      ensures engine.View() == LogInAll(old(engine.View()), Reached(engine.jobs, answer))
      ensures outcome == LoginThrew <==> Throws(engine.jobs, answer)
      ensures outcome == Initialized <==> forall k :: k in KeysOf(engine.jobs) ==> HasStatus(answer(k), 200)
    {
      hide KeysOf, LogInAll, Key, JobScheduler.Valid, Enabled, Emptied, Reached, Throws;
      RegisterOwnJobs();
      ThrowsExactly(engine.jobs, answer);
      var threw, allOk := engine.AuthenticateTargets(answer);
      if threw { return LoginThrew; }
      if !allOk { return Refused; }
      initialized := true;
      return Initialized;
    }

    /** Stop, swap, log in, start: a login whose transport throws ends the refresh between
        the swap and the start. */
    method Refresh(provided: Option<seq<Job>>, answer: string -> Answer) returns (outcome: RefreshOutcome)
      requires Valid()
      modifies this`lastJobs, engine
      ensures Valid()
      ensures (View(), outcome) == Refreshed(old(View()), hasProvider, provided, answer)
      ensures outcome == Kept ==> unchanged(this) && unchanged(engine)
    {
      hide Enabled, LogInAll, KeysOf, Key, JobScheduler.Valid, Reached, Throws, Intervals;
      if !hasProvider { return Kept; }
      if provided.None? { return Kept; }
      var next := provided.value;
      if next == lastJobs { return Kept; }
      lastJobs := next;
      engine.Stop();
      engine.SetJobs(next);
      var threw, allOk := engine.AuthenticateTargets(answer);
      if threw { return Threw; }
      engine.Start();
      return Reloaded;
    }
  }

  /** A job after its texts and headers have been moved from: the interval stays. */
  function MovedFrom(job: Job): Job { Job("", "", "", job.interval, Target("", "", "", [])) }

  function Emptied(jobs: seq<Job>): (r: seq<Job>)
    ensures |r| == |jobs| && forall i :: 0 <= i < |r| ==> r[i] == MovedFrom(jobs[i])
  {
    seq(|jobs|, i requires 0 <= i < |jobs| => MovedFrom(jobs[i]))
  }

  /** A second Initialize without a provider registers, for each enabled job of the first,
      one more job with no name, path or target. */
  lemma {:induction false} SecondInitialize(jobs: seq<Job>)
    ensures Enabled(Emptied(jobs)) == Emptied(Enabled(jobs))
  {
    if jobs != [] {
      var n := |jobs| - 1;
      SecondInitialize(jobs[..n]);
      assert Emptied(jobs)[..n] == Emptied(jobs[..n]);
    }
  }

  datatype InitOutcome = ProviderThrew | LoginThrew | Refused | Initialized

  // ---- refreshes as values ----

  datatype RefreshOutcome = Kept | Reloaded | Threw

  datatype Engine = Engine(jobs: seq<Job>, sessions: Sessions, timers: seq<int>, started: bool)

  datatype SchedulerState = SchedulerState(engine: Engine, lastJobs: seq<Job>)

  ghost function Refreshed(s: SchedulerState, hasProvider: bool, provided: Option<seq<Job>>, answer: string -> Answer)
    : (SchedulerState, RefreshOutcome)
  {
    if !hasProvider || provided.None? || provided.value == s.lastJobs then (s, Kept)
    else
      var jobs := Enabled(provided.value);
      var sessions := LogInAll(map[], Reached(jobs, answer));
      if Throws(jobs, answer) then (SchedulerState(Engine(jobs, sessions, [], false), provided.value), Threw)
      else (SchedulerState(Engine(jobs, sessions, Intervals(jobs), true), provided.value), Reloaded)
  }

  /** Every job has its timer. */
  ghost predicate Running(e: Engine) { e.started && e.timers == Intervals(e.jobs) }

  /** A session that has sent one request, the login of the target's first job. */
  ghost predicate OneLogin(sessions: Sessions, jobs: seq<Job>, key: string) {
    && key in KeysOf(jobs) && key in sessions
    && var t := FirstOf(jobs, key).target; var url := StripSlashes(t.serverUrl);
       sessions[key] == Session(url, t.headers, t.email, t.password, [LoginRequest(url, t.email, t.password, t.headers)])
  }

  /** A refresh with a changed list ends with the new jobs running exactly when no target's
      login throws; a refresh without a change keeps everything. */
  lemma RefreshEndsExactly(s: SchedulerState, hasProvider: bool, provided: Option<seq<Job>>, answer: string -> Answer)
    ensures var (after, outcome) := Refreshed(s, hasProvider, provided, answer);
      var changed := hasProvider && provided.Some? && provided.value != s.lastJobs;
      && (outcome == Reloaded <==>
            changed && forall k :: k in KeysOf(Enabled(provided.value)) ==> answer(k).Responded?)
      && (outcome == Kept <==> !changed) && (outcome == Kept ==> after == s)
      && (outcome == Reloaded ==>
            && Running(after.engine) && after.engine.jobs == Enabled(provided.value)
            && after.lastJobs == provided.value && after.engine.sessions.Keys == KeysOf(after.engine.jobs)
            && forall k :: k in after.engine.sessions ==> OneLogin(after.engine.sessions, after.engine.jobs, k))
  {
    var (after, outcome) := Refreshed(s, hasProvider, provided, answer);
    if outcome != Kept {
      var jobs := Enabled(provided.value);
      ThrowsExactly(jobs, answer);
      if outcome == Reloaded { FreshLogins(jobs); }
    }
  }

  /** What a refresh that throws leaves behind: the list and the jobs swapped, the engine
      stopped with no timer, and one login for each target up to the one that threw. */
  lemma ThrowingRefreshLeaves(s: SchedulerState, hasProvider: bool, provided: Option<seq<Job>>, answer: string -> Answer)
    requires Refreshed(s, hasProvider, provided, answer).1 == Threw
    ensures var after := Refreshed(s, hasProvider, provided, answer).0; var e := after.engine;
      var n := FirstThrower(e.jobs, answer);
      && provided.Some? && after.lastJobs == provided.value && e.jobs == Enabled(provided.value)
      && !e.started && e.timers == [] && e.jobs != []
      && n < |e.jobs| && answer(Key(e.jobs[n])).TransportThrew?
      && (forall i :: 0 <= i < n ==> answer(Key(e.jobs[i])).Responded?)
      && e.sessions.Keys == KeysOf(e.jobs[..n + 1])
      && forall k :: k in e.sessions ==> OneLogin(e.sessions, e.jobs[..n + 1], k)
  {
    var jobs := Enabled(provided.value);
    FreshLogins(Reached(jobs, answer));
  }

  /** Repeating any refresh with the same list changes nothing, whatever the transport does
      by then: after a throw the engine stays stopped. */
  lemma {:induction false} RepeatsChangeNothing(s: SchedulerState, list: seq<Job>, answer: string -> Answer,
                                                later: seq<string -> Answer>)
    ensures var after := Refreshed(s, true, Some(list), answer).0;
      RefreshAll(after, seq(|later|, i requires 0 <= i < |later| => (Some(list), later[i]))) == after
  {
    var after := Refreshed(s, true, Some(list), answer).0;
    assert after.lastJobs == list;
    SameList(after, list, later);
  }

  lemma {:induction false} SameList(s: SchedulerState, list: seq<Job>, later: seq<string -> Answer>)
    requires s.lastJobs == list
    ensures RefreshAll(s, seq(|later|, i requires 0 <= i < |later| => (Some(list), later[i]))) == s
  {
    var history := seq(|later|, i requires 0 <= i < |later| => (Some(list), later[i]));
    if later != [] {
      var rest := later[..|later| - 1];
      SameList(s, list, rest);
      assert history[..|history| - 1] == seq(|rest|, i requires 0 <= i < |rest| => (Some(list), rest[i]));
    }
  }

  type RefreshEvent = (Option<seq<Job>>, string -> Answer)

  ghost function RefreshAll(s: SchedulerState, history: seq<RefreshEvent>): SchedulerState {
    if history == [] then s
    else
      var last := history[|history| - 1];
      Refreshed(RefreshAll(s, history[..|history| - 1]), true, last.0, last.1).0
  }

  /** The outcome of the last refresh that changed something, or Kept. */
  ghost function LastChange(s: SchedulerState, history: seq<RefreshEvent>): RefreshOutcome {
    if history == [] then Kept
    else
      var before, last := history[..|history| - 1], history[|history| - 1];
      var outcome := Refreshed(RefreshAll(s, before), true, last.0, last.1).1;
      if outcome == Kept then LastChange(s, before) else outcome
  }

  /** Over every sequence of refreshes: the jobs run exactly when the last refresh that
      changed the list did not throw, or none did and they ran before. */
  lemma {:induction false} RunningExactly(s: SchedulerState, history: seq<RefreshEvent>)
    ensures var last := LastChange(s, history); var e := RefreshAll(s, history).engine;
      && (last == Reloaded ==> Running(e))
      && (last == Threw ==> !e.started && e.timers == [])
      && (last == Kept ==> RefreshAll(s, history) == s)
  {
    if history != [] { RunningExactly(s, history[..|history| - 1]); }
  }

  /** One unreachable target among the new jobs stops a running scheduler, and asking again
      with the same list does not start it. */
  lemma UnreachableTargetStops()
    ensures var job := Job("j", "POST", "/p", 60, Target("u", "e", "p", []));
      var s := SchedulerState(Engine([], map[], [], true), []);
      var unreachable := (k: string) => TransportThrew;
      var ok := (k: string) => Responded(Response(200, [], []));
      var after := Refreshed(s, true, Some([job]), unreachable).0;
      && Running(s.engine) && !after.engine.started && after.engine.jobs == [job]
      && Refreshed(after, true, Some([job]), ok) == (after, Kept)
  {
    hide Key, LogInAll;
    var job := Job("j", "POST", "/p", 60, Target("u", "e", "p", []));
    assert [job][..0] == [];
    assert Enabled([job]) == [job];
  }

  // ---- sessions as values ----

  datatype Session = Session(
    baseUrl: string, headers: seq<(string, string)>, email: string, password: string, sent: seq<Request>)

  type Sessions = map<string, Session>

  function NewSession(job: Job): Session {
    Session(StripSlashes(job.target.serverUrl), job.target.headers, "", "", [])
  }

  ghost function SessionFor(s: Sessions, job: Job): Session {
    if Key(job) in s then s[Key(job)] else NewSession(job)
  }

  function LoggedIn(s: Session, email: string, password: string): Session {
    s.(email := email, password := password, sent := s.sent + [LoginRequest(s.baseUrl, email, password, s.headers)])
  }

  ghost function LogInOne(s: Sessions, job: Job): Sessions {
    s[Key(job) := LoggedIn(SessionFor(s, job), job.target.email, job.target.password)]
  }

  /** The login loop: a target met before is skipped. */
  ghost function LogInAll(s: Sessions, jobs: seq<Job>): Sessions {
    if jobs == [] then s
    else
      var rest, job := jobs[..|jobs| - 1], jobs[|jobs| - 1];
      if Key(job) in KeysOf(rest) then LogInAll(s, rest) else LogInOne(LogInAll(s, rest), job)
  }

  /** Position of the first job whose target's transport throws, or the number of jobs. */
  function FirstThrower(jobs: seq<Job>, answer: string -> Answer): (i: nat)
    ensures i <= |jobs| && (i < |jobs| ==> answer(Key(jobs[i])).TransportThrew?)
    ensures forall j :: 0 <= j < i ==> answer(Key(jobs[j])).Responded?
  {
    if jobs == [] || answer(Key(jobs[0])).TransportThrew? then 0 else 1 + FirstThrower(jobs[1..], answer)
  }

  predicate Throws(jobs: seq<Job>, answer: string -> Answer) { FirstThrower(jobs, answer) < |jobs| }

  /** The jobs the login loop gets to. */
  function Reached(jobs: seq<Job>, answer: string -> Answer): seq<Job> {
    if Throws(jobs, answer) then jobs[..FirstThrower(jobs, answer) + 1] else jobs
  }

  lemma ThrowsExactly(jobs: seq<Job>, answer: string -> Answer)
    ensures Throws(jobs, answer) <==> exists k :: k in KeysOf(jobs) && answer(k).TransportThrew?
  {
    hide Key, FirstThrower;
    var n := FirstThrower(jobs, answer);
    if n < |jobs| { assert Key(jobs[n]) in KeysOf(jobs); }
  }

  lemma ThrowerIs(jobs: seq<Job>, answer: string -> Answer, i: nat)
    requires i < |jobs| && answer(Key(jobs[i])).TransportThrew?
    requires forall k :: k in KeysOf(jobs[..i]) ==> answer(k).Responded?
    ensures Throws(jobs, answer) && Reached(jobs, answer) == jobs[..i + 1]
  {
    hide Key, FirstThrower;
    forall j | 0 <= j < i ensures answer(Key(jobs[j])).Responded? {
      assert jobs[..i][j] == jobs[j] && jobs[j] in jobs[..i];
      assert Key(jobs[j]) in KeysOf(jobs[..i]);
    }
    assert FirstThrower(jobs, answer) == i;
  }

  lemma NoThrower(jobs: seq<Job>, answer: string -> Answer)
    requires forall k :: k in KeysOf(jobs) ==> answer(k).Responded?
    ensures !Throws(jobs, answer) && Reached(jobs, answer) == jobs
  {
    ThrowsExactly(jobs, answer);
  }

  /** From no sessions, the login loop leaves one session per target, with one login. */
  lemma FreshLogins(jobs: seq<Job>)
    ensures var s := LogInAll(map[], jobs);
      s.Keys == KeysOf(jobs) && forall k :: k in s ==> OneLogin(s, jobs, k)
  {
    hide KeysOf, Key, LogInAll, LoginRequest;
    var s := LogInAll(map[], jobs);
    forall k ensures (k in s <==> k in KeysOf(jobs)) && (k in s ==> OneLogin(s, jobs, k)) {
      OneLoginPerTarget(map[], jobs, k);
    }
  }

  /** Each target of the jobs has sent exactly one more request, the login of its first
      job; no other session changes. */
  lemma {:induction false} OneLoginPerTarget(s: Sessions, jobs: seq<Job>, key: string)
    ensures key in KeysOf(jobs) ==>
      var job := FirstOf(jobs, key);
      key in LogInAll(s, jobs) && LogInAll(s, jobs)[key] == LogInOne(s, job)[key]
    ensures key !in KeysOf(jobs) ==>
      (key in LogInAll(s, jobs) <==> key in s) && (key in s ==> LogInAll(s, jobs)[key] == s[key])
  {
    if jobs != [] {
      var n := |jobs| - 1;
      var rest, job := jobs[..n], jobs[n];
      assert jobs[..n + 1] == jobs;
      NextKeys(jobs, n);
      OneLoginPerTarget(s, rest, key);
      hide KeysOf, Key, LoginRequest;
      if key in KeysOf(rest) {
        FirstStays(jobs, n, key);
      } else if key == Key(job) {
        FirstIs(jobs, n);
      }
    }
  }

  /** In terms of requests: the first job's server, credentials and headers when its target
      had no session, and the session's own server and headers when it had one. */
  lemma LoginsSent(s: Sessions, jobs: seq<Job>, key: string)
    requires key in KeysOf(jobs)
    ensures key in LogInAll(s, jobs)
    ensures var job, after := FirstOf(jobs, key), LogInAll(s, jobs)[key];
      && after.email == job.target.email && after.password == job.target.password
      && after.baseUrl == (if key in s then s[key].baseUrl else StripSlashes(job.target.serverUrl))
      && after.headers == (if key in s then s[key].headers else job.target.headers)
      && |after.sent| == (if key in s then |s[key].sent| else 0) + 1
      && (key in s ==> s[key].sent <= after.sent)
      && AsksLogin(after.sent[|after.sent| - 1], after.baseUrl, job.target.email, job.target.password, after.headers)
  {
    hide KeysOf, LogInAll, LoginRequest, Key, AsksLogin;
    OneLoginPerTarget(s, jobs, key);
    var job := FirstOf(jobs, key);
    var before := SessionFor(s, job);
    LoginRequestAsks(before.baseUrl, job.target.email, job.target.password, before.headers);
  }

  lemma NoKeys()
    ensures KeysOf([]) == {}
  {
  }

  lemma NextKeys(jobs: seq<Job>, i: nat)
    requires i < |jobs|
    ensures KeysOf(jobs[..i + 1]) == KeysOf(jobs[..i]) + {Key(jobs[i])}
  {
    assert jobs[..i + 1] == jobs[..i] + [jobs[i]];
  }

  lemma FirstIs(jobs: seq<Job>, i: nat)
    requires i < |jobs| && Key(jobs[i]) !in KeysOf(jobs[..i])
    ensures Key(jobs[i]) in KeysOf(jobs) && FirstOf(jobs, Key(jobs[i])) == jobs[i]
  {
    hide Key, FindTarget;
    assert jobs[i] in jobs;
    assert forall j :: 0 <= j < i ==> jobs[..i][j] == jobs[j];
    assert FindTarget(jobs, Key(jobs[i])) == i;
  }

  lemma FirstStays(jobs: seq<Job>, n: nat, key: string)
    requires n <= |jobs| && key in KeysOf(jobs[..n])
    ensures key in KeysOf(jobs) && FirstOf(jobs, key) == FirstOf(jobs[..n], key)
  {
    hide Key, FindTarget;
    var i := FindTarget(jobs[..n], key);
    assert i < n;
    assert jobs[i] in jobs;
    assert forall j :: 0 <= j < n ==> jobs[..n][j] == jobs[j];
    assert FindTarget(jobs, key) == i;
  }
}
