/** Whole runs of one daemon: messages, requests of the Local Agent and alarms, in any order. */
module Runs {
  import opened Base
  import opened Params
  import opened Timers
  import opened Node
  import opened Steps
  import opened Schedule
  import opened Routes
  import opened Discoveries

  datatype Event =
    | Recv(from: Addr, ttl: int, msg: Msg)
    | Ask(dst: Addr, src: Addr, tcp: bool)
    | Alarm

  /** One event, with one reading of the clock. SIGALRM uses the alarm up. */
  function Step(n: Node, ev: Event, env: Env): Node {
    match ev
    case Recv(from, ttl, msg) => Receive(n, from, ttl, msg, env)
    case Ask(d, src, tcp) => AgentRequest(n, d, src, tcp, env)
    case Alarm => ScheduleTimer(n.(tq := n.tq.(alarm := None)), env)
  }

  /**
   What the environment owes the daemon: no received hop count that becomes INFINITY, and no new
   request for a destination whose last request was not answered.
   */
  ghost predicate EventOk(n: Node, ev: Event) {
    match ev
    case Recv(_, _, msg) => HopsOk(msg)
    case Ask(d, _, _) => !Open(n.trace, d)
    case Alarm => true
  }

  /** The daemon after aodv_daemon has set its two timers, at time now. */
  function Boot(ip: Addr, helloFlag: bool, now: int): Node {
    var tq := Queue([Timer(now + DELETE_PERIOD, Job(RebootTimer, 0))], Arm(now, DELETE_PERIOD));
    Node(ip, helloFlag, true, true, 0, 0, map[], map[], {}, [], map[],
         SetTimer(tq, now, PERIODIC_INTERVAL, Job(PeriodicTimer, 0)), [], [])
  }

  datatype Moment = Moment(ev: Event, env: Env)

  /** The runs from n in which the environment keeps its side. */
  ghost predicate Run(n: Node, ms: seq<Moment>, n': Node)
    decreases ms
  {
    if ms == [] then n' == n
    else EventOk(n, ms[0].ev) && Run(Step(n, ms[0].ev, ms[0].env), ms[1..], n')
  }

  // ---- routes, kernel and timers together ----

  ghost predicate DiscoveryInv(n: Node) {
    forall k {:trigger ViewOf(n, k)} :: OneTimer(ViewOf(n, k)) && Backed(ViewOf(n, k))
  }

  ghost predicate NodeInv(n: Node) {
    RouteInv(n) && DiscoveryInv(n)
  }

  /** Local repair never gives up on an active route. */
  lemma {:induction false} LrHeadInactive(n: Node, t: Timer<Job>)
    requires DiscoveryInv(n) && t in n.tq.list && t.what.kind.LrTimer?
    ensures !IsActive(n.table, t.what.data)
  {
    var k := t.what.data;
    var i :| 0 <= i < |n.tq.list| && n.tq.list[i] == t;
    CountRemoveAt(n.tq.list, i, JobIs(Job(LrTimer, k)));
    assert OneTimer(ViewOf(n, k));
  }

  lemma FireKeeps(n: Node, env: Env)
    requires NodeInv(n) && n.tq.list != [] && n.tq.list[0].timeout <= env.now
    ensures NodeInv(FireHead(n, env))
  {
    var head := n.tq.list[0];
    assert Backed(ViewOf(n, head.what.data));
    if head.what.kind.LrTimer? {
      LrHeadInactive(n, head);
    }
    hide RouteInv, Handle, OneTimer, Backed, ViewOf;
    HandleKeeps(n, head.what, env);
    FrameKeeps(Handle(n, head.what, env), FireHead(n, env));
    forall k ensures OneTimer(ViewOf(FireHead(n, env), k)) && Backed(ViewOf(FireHead(n, env), k)) {
      FirePreserves(n, env, k);
    }
    hide FireHead;
  }

  lemma {:induction false} ScheduleKeeps(n: Node, env: Env)
    requires NodeInv(n)
    ensures NodeInv(ScheduleTimer(n, env))
    decreases CountDue(n.tq.list, env.now)
  {
    hide NodeInv, FireHead;
    if n.tq.list == [] || env.now < n.tq.list[0].timeout {
      AlarmIrrelevant(n, ScheduleTimer(n, env));
    } else {
      FireKeeps(n, env);
      ScheduleKeeps(FireHead(n, env), env);
    }
  }

  lemma AlarmIrrelevant(n: Node, n': Node)
    requires NodeInv(n) && n' == n.(tq := n.tq.(alarm := n'.tq.alarm))
    ensures NodeInv(n')
  {
    forall k ensures ViewOf(n', k) == ViewOf(n, k) {
    }
    hide OneTimer, Backed, ViewOf;
    FrameKeeps(n, n');
  }

  lemma {:induction false} StepKeeps(n: Node, ev: Event, env: Env)
    requires NodeInv(n) && EventOk(n, ev)
    ensures NodeInv(Step(n, ev, env))
  {
    hide RouteInv, OneTimer, Backed, Receive, AgentRequest, ScheduleTimer;
    match ev
    case Recv(from, ttl, msg) =>
      ReceiveKeeps(n, from, ttl, msg, env);
      forall k ensures OneTimer(ViewOf(Step(n, ev, env), k)) && Backed(ViewOf(Step(n, ev, env), k)) {
        ReceivePreserves(n, from, ttl, msg, env, k);
        hide ViewOf;
      }
    case Ask(d, src, tcp) =>
      AgentRequestKeeps(n, d, src, tcp, env);
      forall k ensures OneTimer(ViewOf(Step(n, ev, env), k)) && Backed(ViewOf(Step(n, ev, env), k)) {
        AgentRequestPreserves(n, d, src, tcp, env, k);
        assert ViewOf(n, d).open == Open(n.trace, d);
        hide ViewOf;
      }
    case Alarm =>
      var n1 := n.(tq := n.tq.(alarm := None));
      AlarmIrrelevant(n, n1);
      ScheduleKeeps(n1, env);
  }

  lemma BootInv(ip: Addr, helloFlag: bool, now: int)
    ensures NodeInv(Boot(ip, helloFlag, now))
  {
    var n := Boot(ip, helloFlag, now);
    var q := [Timer(now + DELETE_PERIOD, Job(RebootTimer, 0))];
    assert ActiveKeys(n.table) == {};
    forall k ensures OneTimer(ViewOf(n, k)) && Backed(ViewOf(n, k)) {
      AddTimers(q, Timer(now + PERIODIC_INTERVAL, Job(PeriodicTimer, 0)), k);
      HeadCounts(q, k);
      assert q[1..] == [] && RreqTimers([], k) == 0 && LrTimers([], k) == 0;
      hide Insert;
    }
  }

  lemma {:induction false} RunKeeps(n: Node, ms: seq<Moment>, n': Node)
    requires NodeInv(n) && Run(n, ms, n')
    ensures NodeInv(n')
    decreases ms
  {
    hide NodeInv, Step, EventOk;
    if ms != [] {
      StepKeeps(n, ms[0].ev, ms[0].env);
      RunKeeps(Step(n, ms[0].ev, ms[0].env), ms[1..], n');
    }
  }

  /** The timers of d: at most one, and only for an unanswered request; one for a local request. */
  ghost predicate TimersOk(n: Node, d: Addr) {
    && RreqTimers(n.tq.list, d) + LrTimers(n.tq.list, d) <= (if Open(n.trace, d) then 1 else 0)
    && (OpenLocal(n.trace, d) && d != n.ip ==> RreqTimers(n.tq.list, d) == 1)
    && (LrTimers(n.tq.list, d) == 1 ==> !IsActive(n.table, d))
    && RreqTimers(n.tq.list, d) <= PendingFor(n.pending, d)
  }

  lemma ViewTimers(n: Node, d: Addr)
    requires DiscoveryInv(n)
    ensures TimersOk(n, d)
  {
    assert OneTimer(ViewOf(n, d)) && Backed(ViewOf(n, d));
  }

  /**
   Over every run from boot: no kernel routes during reboot and afterwards exactly the active
   entries' destinations; every IP_FOUND sent with its route in the kernel; active entries never
   look expired, invalid ones always do, and broken ones are under local repair; and for every
   destination at most one RREQ or local repair timer, exactly one RREQ timer while a local request
   is unanswered, none for an answered one, and no local repair of an active route.
   */
  lemma {:induction false} RunInvariant(ip: Addr, helloFlag: bool, now: int, ms: seq<Moment>, n: Node)
    requires Run(Boot(ip, helloFlag, now), ms, n)
    ensures n.reboot ==> n.fib == map[]
    ensures !n.reboot ==> n.fib.Keys == ActiveKeys(n.table)
    ensures forall i :: 0 <= i < |n.trace| && n.trace[i].Reply? && n.trace[i].found ==> n.trace[i].routed
    ensures TableOk(n.table, n.repair)
    ensures forall d :: TimersOk(n, d)
  {
    BootInv(ip, helloFlag, now);
    RunKeeps(Boot(ip, helloFlag, now), ms, n);
    forall d ensures TimersOk(n, d) {
      ViewTimers(n, d);
    }
    hide Run, Boot, TimersOk, DiscoveryInv;
  }

  // ---- how often a RREQ is sent again ----

  /** How many more times p can be sent again. */
  function Left(p: Pending): nat {
    (if p.ttl <= 2 then 2 else if p.ttl <= 4 then 1 else 0)
    + (if p.retries >= RREQ_RETRIES then 0 else RREQ_RETRIES - p.retries)
  }

  function Budget(l: seq<Pending>): nat {
    if l == [] then 0 else Left(l[0]) + Budget(l[1..])
  }

  lemma {:induction false} BudgetConcat(a: seq<Pending>, b: seq<Pending>)
    ensures Budget(a + b) == Budget(a) + Budget(b)
  {
    if a == [] {
      assert a + b == b;
    } else {
      assert (a + b)[1..] == a[1..] + b;
      BudgetConcat(a[1..], b);
    }
  }

  lemma BudgetSplit(l: seq<Pending>, i: nat)
    requires i < |l|
    ensures Budget(l) == Budget(l[..i]) + Left(l[i]) + Budget(l[i + 1..])
  {
    assert l == l[..i] + ([l[i]] + l[i + 1..]);
    BudgetConcat(l[..i], [l[i]] + l[i + 1..]);
    BudgetConcat([l[i]], l[i + 1..]);
  }

  /** Each resend uses up one of the entry's chances, and a new entry has at most four. */
  lemma NextRingUsesOne(p: Pending)
    ensures NextRing(p).retries <= RREQ_RETRIES ==> Left(NextRing(p)) == Left(p) - 1
    ensures Left(p) <= 4
  {
  }

  ghost predicate Thrifty(t: Totals) {
    t.resent + Budget(t.pending) <= 4 * t.originated
  }

  lemma HandleThrifty(n: Node, j: Job, env: Env)
    requires Thrifty(TotalsOf(n))
    ensures Thrifty(TotalsOf(Handle(n, j, env)))
  {
    hide TotalsOf, NextRing, Left, Handle;
    var t, t' := TotalsOf(n), TotalsOf(Handle(n, j, env));
    HandleTotals(n, j, env);
    if t' != t && !Forgot(t, t', env.now) {
      var i: nat :| SentAgain(t, t', i) || GaveUp(t, t', i);
      BudgetSplit(t.pending, i);
      if GaveUp(t, t', i) {
        BudgetConcat(t.pending[..i], t.pending[i + 1..]);
      } else {
        BudgetSplit(t'.pending, i);
        assert t'.pending[..i] == t.pending[..i] && t'.pending[i + 1..] == t.pending[i + 1..];
        NextRingUsesOne(t.pending[i]);
        SameLeft(t'.pending[i], NextRing(t.pending[i]));
      }
    }
  }

  lemma SameLeft(p: Pending, p': Pending)
    requires p.ttl == p'.ttl && p.retries == p'.retries
    ensures Left(p) == Left(p')
  {
  }

  lemma {:induction false} ScheduleThrifty(n: Node, env: Env)
    requires Thrifty(TotalsOf(n))
    ensures Thrifty(TotalsOf(ScheduleTimer(n, env)))
    decreases CountDue(n.tq.list, env.now)
  {
    hide Thrifty, Handle;
    if n.tq.list != [] && n.tq.list[0].timeout <= env.now {
      HandleThrifty(n, n.tq.list[0].what, env);
      ScheduleThrifty(FireHead(n, env), env);
    }
  }

  lemma StepThrifty(n: Node, ev: Event, env: Env)
    requires Thrifty(TotalsOf(n))
    ensures Thrifty(TotalsOf(Step(n, ev, env)))
  {
    hide Receive, AgentRequest, ScheduleTimer;
    var t, t' := TotalsOf(n), TotalsOf(Step(n, ev, env));
    match ev
    case Recv(from, ttl, msg) =>
      ReceivePreserves(n, from, ttl, msg, env, 0);
      var src, id :| HandlesOnce(t, t', src, id, env.now);
    case Ask(d, src, tcp) =>
      AgentRequestTotals(n, d, src, tcp, env);
      hide TotalsOf;
      if t' != t {
        var k := |t.pending|;
        assert t'.pending == t.pending + [t'.pending[k]];
        BudgetConcat(t.pending, [t'.pending[k]]);
        NextRingUsesOne(t'.pending[k]);
        assert Budget([t'.pending[k]]) == Left(t'.pending[k]);
      }
    case Alarm =>
      ScheduleThrifty(n.(tq := n.tq.(alarm := None)), env);
  }

  /** All runs, with no assumption on the environment. */
  ghost predicate AnyRun(n: Node, ms: seq<Moment>, n': Node)
    decreases ms
  {
    if ms == [] then n' == n else AnyRun(Step(n, ms[0].ev, ms[0].env), ms[1..], n')
  }

  lemma {:induction false} AnyRunThrifty(n: Node, ms: seq<Moment>, n': Node)
    requires Thrifty(TotalsOf(n)) && AnyRun(n, ms, n')
    ensures Thrifty(TotalsOf(n'))
    decreases ms
  {
    hide Thrifty, Step, TotalsOf;
    if ms != [] {
      StepThrifty(n, ms[0].ev, ms[0].env);
      AnyRunThrifty(Step(n, ms[0].ev, ms[0].env), ms[1..], n');
    }
  }

  /** The RREQ timer of d fires at each of the given times. */
  function Firings(n: Node, d: Addr, nows: seq<int>): Node {
    if nows == [] then n else ResendRREQ(Firings(n, d, nows[..|nows| - 1]), d, nows[|nows| - 1])
  }

  /** A pending destination has used up j of what its first entry had left, or was refused by then. */
  ghost predicate Progress(n: Node, n': Node, d: Addr, j: nat)
    requires FirstPending(n.pending, d) < |n.pending|
  {
    var i, i' := FirstPending(n.pending, d), FirstPending(n'.pending, d);
    i' < |n'.pending| && Left(n'.pending[i']) + j <= Left(n.pending[i])
  }

  lemma ResendProgress(n: Node, d: Addr, now: int)
    requires FirstPending(n.pending, d) < |n.pending|
    ensures var n' := ResendRREQ(n, d, now);
            n'.trace == n.trace + [Reply(d, false, d in n.fib)] || Progress(n, n', d, 1)
  {
    hide SetTimer, FirstPending;
    var i := FirstPending(n.pending, d);
    var p := NextRing(n.pending[i]);
    NextRingDest(n.pending[i]);
    if p.retries <= RREQ_RETRIES {
      ResendShape(n, d, now);
      NextRingUsesOne(n.pending[i]);
      var n' := ResendRREQ(n, d, now);
      hide ResendRREQ, NextRing;
      SameFirst(n.pending, n'.pending, i, d);
      SameLeft(p, n'.pending[i]);
    }
  }

  lemma SameFirst(l: seq<Pending>, l': seq<Pending>, i: nat, d: Addr)
    requires i == FirstPending(l, d) < |l| == |l'| && l' == l[i := l'[i]] && l'[i].rreq.dest == d
    ensures FirstPending(l', d) == i
  {
    assert forall j :: 0 <= j < i ==> l'[j] == l[j];
  }

  /**
   A pending destination is refused at the latest when its RREQ timer fires for one time more than its
   first entry has rings and retries left: at most five times after the RREQ was originated.
   */
  lemma {:induction false} RefusedInTime(n: Node, d: Addr, nows: seq<int>)
    requires FirstPending(n.pending, d) < |n.pending|
    requires |nows| > Left(n.pending[FirstPending(n.pending, d)])
    ensures exists j :: 0 <= j < |nows| && var n' := Firings(n, d, nows[..j]);
              Firings(n, d, nows[..j + 1]).trace == n'.trace + [Reply(d, false, d in n'.fib)]
  {
    hide FirstPending, ResendRREQ, Left;
    var k := 0;
    while k < |nows| && Firings(n, d, nows[..k + 1]).trace
                        != Firings(n, d, nows[..k]).trace + [Reply(d, false, d in Firings(n, d, nows[..k]).fib)]
      invariant 0 <= k <= |nows| && Progress(n, Firings(n, d, nows[..k]), d, k)
    {
      assert nows[..k + 1][..k] == nows[..k];
      ResendProgress(Firings(n, d, nows[..k]), d, nows[k]);
      k := k + 1;
    }
  }

  /** Over any run, RREQs are sent again at most four times as often as they are originated. */
  lemma {:induction false} ResendsBounded(ip: Addr, helloFlag: bool, now: int, ms: seq<Moment>, n: Node)
    requires AnyRun(Boot(ip, helloFlag, now), ms, n)
    ensures ResentIn(n.trace) <= 4 * OriginatedIn(n.trace)
  {
    AnyRunThrifty(Boot(ip, helloFlag, now), ms, n);
  }

  // ---- every RREQ timer finds its entry ----

  ghost predicate AllBacked(n: Node) {
    forall k {:trigger ViewOf(n, k)} :: Backed(ViewOf(n, k))
  }

  lemma {:induction false} ScheduleBacked(n: Node, env: Env)
    requires AllBacked(n)
    ensures AllBacked(ScheduleTimer(n, env))
    decreases CountDue(n.tq.list, env.now)
  {
    hide FireHead;
    if n.tq.list == [] || env.now < n.tq.list[0].timeout {
      forall k ensures ViewOf(ScheduleTimer(n, env), k) == ViewOf(n, k) {
      }
    } else {
      assert Backed(ViewOf(n, n.tq.list[0].what.data));
      hide ViewOf, ScheduleTimer, OneTimer;
      forall k ensures Backed(ViewOf(FireHead(n, env), k)) {
        FirePreserves(n, env, k);
      }
      ScheduleBacked(FireHead(n, env), env);
      assert ScheduleTimer(n, env) == ScheduleTimer(FireHead(n, env), env) by { ScheduleUnfold(n, env); }
    }
  }

  lemma ScheduleUnfold(n: Node, env: Env)
    requires n.tq.list != [] && n.tq.list[0].timeout <= env.now
    ensures ScheduleTimer(n, env) == ScheduleTimer(FireHead(n, env), env)
  {
  }

  lemma StepBacked(n: Node, ev: Event, env: Env)
    requires AllBacked(n)
    ensures AllBacked(Step(n, ev, env))
  {
    hide Receive, AgentRequest, ScheduleTimer, OneTimer;
    match ev
    case Recv(from, ttl, msg) =>
      forall k ensures Backed(ViewOf(Step(n, ev, env), k)) {
        ReceivePreserves(n, from, ttl, msg, env, k);
        hide ViewOf;
      }
    case Ask(d, src, tcp) =>
      forall k ensures Backed(ViewOf(Step(n, ev, env), k)) {
        AgentRequestPreserves(n, d, src, tcp, env, k);
        hide ViewOf;
      }
    case Alarm =>
      var n1 := n.(tq := n.tq.(alarm := None));
      forall k ensures ViewOf(n1, k) == ViewOf(n, k) {
      }
      ScheduleBacked(n1, env);
  }

  lemma {:induction false} AnyRunBacked(n: Node, ms: seq<Moment>, n': Node)
    requires AllBacked(n) && AnyRun(n, ms, n')
    ensures AllBacked(n')
    decreases ms
  {
    hide AllBacked, Step;
    if ms != [] {
      StepBacked(n, ms[0].ev, ms[0].env);
      AnyRunBacked(Step(n, ms[0].ev, ms[0].env), ms[1..], n');
    }
  }

  /** The error branch "entry not in rreq List" is never taken, whatever the agent and the network do. */
  lemma {:induction false} ResendFindsEntry(ip: Addr, helloFlag: bool, now: int, ms: seq<Moment>, n: Node, i: nat)
    requires AnyRun(Boot(ip, helloFlag, now), ms, n) && i < |n.tq.list| && n.tq.list[i].what.kind.RreqTimer?
    ensures FirstPending(n.pending, n.tq.list[i].what.data) < |n.pending|
  {
    var b := Boot(ip, helloFlag, now);
    BootInv(ip, helloFlag, now);
    assert AllBacked(b) by {
      forall k ensures Backed(ViewOf(b, k)) {
        assert OneTimer(ViewOf(b, k));
      }
    }
    hide Boot;
    AnyRunBacked(b, ms, n);
    var d := n.tq.list[i].what.data;
    assert Backed(ViewOf(n, d));
    CountRemoveAt(n.tq.list, i, JobIs(Job(RreqTimer, d)));
    PendingFound(n.pending, d);
  }

  // ---- floods are handled once per PATH_TRAVERSAL_TIME ----

  ghost predicate SameFlood(a: Trace, b: Trace) {
    a.Handled? && b.Handled? && a.src == b.src && a.id == b.id
  }

  ghost predicate Spaced(h: seq<Trace>) {
    forall i, j :: 0 <= i < j < |h| && SameFlood(h[i], h[j]) ==> h[i].at + PATH_TRAVERSAL_TIME <= h[j].at
  }

  /** A flood handled less than PATH_TRAVERSAL_TIME ago is still remembered. */
  ghost predicate Remembered(t: Totals, last: int) {
    forall i :: 0 <= i < |t.handled| ==>
      var e := t.handled[i];
      e.Handled? && e.at <= last
      && (last < e.at + PATH_TRAVERSAL_TIME
          ==> (e.src, e.id) in t.fw && e.at + PATH_TRAVERSAL_TIME <= t.fw[(e.src, e.id)])
  }

  ghost predicate Memory(t: Totals, last: int) {
    Spaced(t.handled) && Remembered(t, last)
  }

  lemma HandlesOnceMemory(t: Totals, t': Totals, src: Addr, id: u32, last: int, now: int)
    requires Memory(t, last) && last <= now && HandlesOnce(t, t', src, id, now)
    ensures Memory(t', now)
  {
  }

  lemma HandleMemory(n: Node, j: Job, env: Env, last: int)
    requires Memory(TotalsOf(n), last) && last <= env.now
    ensures Memory(TotalsOf(Handle(n, j, env)), env.now)
  {
    hide TotalsOf, Handle;
    HandleTotals(n, j, env);
  }

  lemma {:induction false} ScheduleMemory(n: Node, env: Env, last: int)
    requires Memory(TotalsOf(n), last) && last <= env.now
    ensures Memory(TotalsOf(ScheduleTimer(n, env)), env.now)
    decreases CountDue(n.tq.list, env.now)
  {
    hide Handle;
    if n.tq.list != [] && n.tq.list[0].timeout <= env.now {
      HandleMemory(n, n.tq.list[0].what, env, last);
      hide Memory;
      ScheduleMemory(FireHead(n, env), env, env.now);
    }
  }

  lemma StepMemory(n: Node, ev: Event, env: Env, last: int)
    requires Memory(TotalsOf(n), last) && last <= env.now
    ensures Memory(TotalsOf(Step(n, ev, env)), env.now)
  {
    hide Receive, AgentRequest, ScheduleTimer;
    var t, t' := TotalsOf(n), TotalsOf(Step(n, ev, env));
    match ev
    case Recv(from, ttl, msg) =>
      ReceivePreserves(n, from, ttl, msg, env, 0);
      hide TotalsOf;
      var src, id :| HandlesOnce(t, t', src, id, env.now);
      HandlesOnceMemory(t, t', src, id, last, env.now);
    case Ask(d, src, tcp) =>
      AgentRequestTotals(n, d, src, tcp, env);
      hide TotalsOf;
    case Alarm =>
      ScheduleMemory(n.(tq := n.tq.(alarm := None)), env, last);
  }

  /** The clock never goes back. */
  ghost predicate Clock(last: int, ms: seq<Moment>)
    decreases ms
  {
    ms != [] ==> last <= ms[0].env.now && Clock(ms[0].env.now, ms[1..])
  }

  lemma {:induction false} AnyRunMemory(n: Node, ms: seq<Moment>, n': Node, last: int)
    requires Memory(TotalsOf(n), last) && AnyRun(n, ms, n') && Clock(last, ms)
    ensures Spaced(TotalsOf(n').handled)
    decreases ms
  {
    hide Step, TotalsOf;
    if ms != [] {
      StepMemory(n, ms[0].ev, ms[0].env, last);
      hide Memory;
      AnyRunMemory(Step(n, ms[0].ev, ms[0].env), ms[1..], n', ms[0].env.now);
    }
  }

  /** A daemon acts on the same flood (source and RREQ id) at most once per PATH_TRAVERSAL_TIME. */
  lemma {:induction false} FloodHandledOnce(ip: Addr, helloFlag: bool, now: int, ms: seq<Moment>, n: Node)
    requires AnyRun(Boot(ip, helloFlag, now), ms, n) && Clock(now, ms)
    ensures Spaced(HandledIn(n.trace))
  {
    AnyRunMemory(Boot(ip, helloFlag, now), ms, n, now);
  }
}
