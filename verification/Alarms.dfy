/** The OS alarm over whole runs: while no timer is overdue, it is never set later than the first timer. */
module Alarms {
  import opened Base
  import opened Params
  import opened Timers
  import opened Node
  import opened Steps
  import opened Effects
  import opened Schedule
  import opened Discoveries
  import opened Runs

  ghost predicate Timely(tq: Queue<Job>, now: int) {
    Sorted(tq.list) && AlarmOk(tq) && NoneDue(tq.list, now)
  }

  lemma SetTimely(tq: Queue<Job>, now: int, delay: int, j: Job)
    requires Timely(tq, now) && 0 < delay
    ensures Timely(SetTimer(tq, now, delay, j), now)
  {
    SetTimerNeverLate(tq, now, delay, j);
    InsertSorted(tq.list, Timer(now + delay, j));
    InsertNoneDue(tq.list, Timer(now + delay, j), now);
    hide Insert, Sorted, NoneDue, AlarmOk;
  }

  lemma RemoveTimely(tq: Queue<Job>, now: int, p: Job -> bool)
    requires Timely(tq, now)
    ensures Timely(RemoveArmed(tq, now, p), now) && Timely(RemoveQuiet(tq, p), now)
  {
    RemoveNeverLate(tq, now, p);
    RemoveSorted(tq.list, p);
    RemoveNoneDue(tq.list, p, now);
    hide RemoveFirst, Sorted, NoneDue, AlarmOk;
  }

  lemma EndDiscoveryTimely(n: Node, d: Addr, now: int)
    requires Timely(n.tq, now)
    ensures Timely(EndDiscovery(n, d, now).tq, now)
  {
    hide Timely, RemoveArmed, HasDiscovery;
    RemoveTimely(n.tq, now, DiscoveryJob(d));
  }

  lemma NeighborUpdateTimely(n: Node, nb: Addr, src: Addr, seqNum: u32, life: int, now: int)
    requires Timely(n.tq, now)
    ensures Timely(NeighborUpdate(n, nb, src, seqNum, life, now).tq, now)
  {
    hide Timely, RemoveQuiet, SetTimer, EndDiscovery, First, NeighborTable;
    var n1 := n.(table := NeighborTable(n.table, nb, seqNum, life),
                 fib := if IsActive(n.table, nb) then n.fib else n.fib[nb := nb]);
    var n2 := EndDiscovery(ReplyTo(n1, nb, true), nb, now);
    EndDiscoveryTimely(ReplyTo(n1, nb, true), nb, now);
    RemoveTimely(n2.tq, now, ActiveRouteJob(nb));
    SetTimely(n2.tq, now, NEIGHBOR_LIFE, Job(ActiveRouteTimer, nb));
    SetTimely(RemoveQuiet(n2.tq, ActiveRouteJob(nb)), now, NEIGHBOR_LIFE, Job(ActiveRouteTimer, nb));
  }

  lemma RouteUpdateTimely(n: Node, dst: Addr, seqNum: u32, hop: int, nhop: Addr, life: int, keep: bool, now: int)
    requires Timely(n.tq, now)
    ensures Timely(RouteUpdate(n, dst, seqNum, hop, nhop, life, keep, now).tq, now)
  {
    hide Timely, EndDiscovery, GenerateRERR, HasDiscovery, RouteTable;
    var n1 := n.(table := RouteTable(n.table, dst, seqNum, hop, nhop, life, keep),
                 fib := if Rewrites(n.table, dst, seqNum, hop, nhop) then n.fib[dst := nhop] else n.fib);
    var n2 := ReplyTo(n1, dst, true);
    EndDiscoveryTimely(n2, dst, now);
    GenerateRERRFrame(EndDiscovery(n2, dst, now), dst, true, false);
  }

  lemma RecvRREQTimely(n: Node, from: Addr, m: Rreq, now: int)
    requires Timely(n.tq, now)
    ensures Timely(RecvRREQ(n, from, m, now).0.tq, now)
  {
    hide Timely, NeighborUpdate, RouteUpdate, RecvRREQ;
    var s := if m.src == from then m.srcSeq else 0;
    NeighborUpdateTimely(n, from, m.src, s, now + NEIGHBOR_LIFE, now);
    var n1 := NeighborUpdate(n, from, m.src, s, now + NEIGHBOR_LIFE, now);
    var n2 := n1.(fw := n1.fw[(m.src, m.id) := now + PATH_TRAVERSAL_TIME],
                  trace := n1.trace + [Handled(m.src, m.id, now)]);
    RouteUpdateTimely(n2, m.src, m.srcSeq, m.hop + 1, from, ReverseNew(n2.table, m, now), true, now);
    RecvRREQShape(n, from, m, now);
  }

  lemma AnswerQueue(n: Node, from: Addr, m: Rreq, env: Env)
    ensures AnswerRREQ(n, from, m, env).tq == n.tq
  {
    hide CreateRREP, CreateGRREP, Unicast;
    CreateRREPCores(n, from, m, env);
    var (n1, rrep) := CreateRREP(n, from, m, env);
    UnicastEffect(n1, m.src, rrep, env.now);
    var n2 := Unicast(n1, m.src, rrep, env.now);
    UnicastEffect(n2, m.dest, CreateGRREP(n2, m, env), env.now);
  }

  lemma ProcessRREQTimely(n: Node, from: Addr, ttl: int, m: Rreq, env: Env)
    requires Timely(n.tq, env.now)
    ensures Timely(ProcessRREQ(n, from, ttl, m, env).tq, env.now)
  {
    hide Timely, RecvRREQ, AnswerRREQ, RebootRREQ;
    RebootRREQFrame(n, from, m, env.now);
    if !n.reboot {
      RecvRREQTimely(n, from, m, env.now);
      AnswerQueue(RecvRREQ(n, from, m, env.now).0, from, m, env);
    }
  }

  lemma ProcessRREPTimely(n: Node, from: Addr, m: Rrep, env: Env)
    requires Timely(n.tq, env.now)
    ensures Timely(ProcessRREP(n, from, m, env).tq, env.now)
  {
    hide Timely, NeighborUpdate, RouteUpdate, RecvRREP, Unicast, RebootRREP;
    RebootRREPFrame(n, from, m, env.now);
    var s := if m.dest == from then m.destSeq else 0;
    var life := env.now + NEIGHBOR_LIFE;
    NeighborUpdateTimely(n, from, m.src, s, life, env.now);
    var n1 := NeighborUpdate(n, from, m.src, s, life, env.now);
    RouteUpdateTimely(n1, m.dest, m.destSeq, m.hop + 1, from, env.now + m.life, false, env.now);
    RecvRREPShape(n, from, m, env.now);
    var (n2, m2, send) := RecvRREP(n, from, m, env.now);
    UnicastEffect(n2, m.src, m2, env.now);
  }

  lemma ProcessRERRTimely(n: Node, from: Addr, m: Rerr, env: Env)
    requires Timely(n.tq, env.now)
    ensures Timely(ProcessRERR(n, from, m, env).tq, env.now)
  {
    hide Timely, NeighborUpdate, NeighborTable, UpdateInvalid, UpdateValid, NewDests, HasPrec, GenerateRERR;
    var life := env.now + NEIGHBOR_LIFE;
    NeighborUpdateTimely(n, from, from, 0, life, env.now);
    var n0 := n.(table := NeighborTable(n.table, from, 0, life));
    UpdateValidFrame(n0.(table := UpdateInvalid(n0.table, m.dests)), m.dests, from, env.now);
    var n1 := NeighborUpdate(n, from, from, 0, life, env.now);
    var n2 := n1.(table := UpdateInvalid(n1.table, m.dests));
    UpdateValidFrame(n2, m.dests, from, env.now);
    RerrQueues(n2, from, m, env.now);
    hide ForwardRERR, LocalRepairRERR;
  }

  lemma RerrQueues(n: Node, from: Addr, m: Rerr, now: int)
    ensures ForwardRERR(n, from, m, now).tq == n.tq && LocalRepairRERR(n, from, m, now).tq == n.tq
  {
    hide UpdateValid, NewDests, HasPrec, GenerateRERR;
    UpdateValidFrame(n, m.dests, from, now);
    if |m.dests| > 0 && m.dests[0].dest in n.table {
      var d := m.dests[0].dest;
      GenerateRERRFrame(n.(table := n.table[d := n.table[d].(seqNum := m.dests[0].seqNum)]), d, true, false);
    }
  }

  lemma ReceiveTimely(n: Node, from: Addr, ttl: int, msg: Msg, env: Env)
    requires Timely(n.tq, env.now)
    ensures Timely(Receive(n, from, ttl, msg, env).tq, env.now)
  {
    hide Timely, ProcessRREQ, ProcessRREP, ProcessRERR;
    match msg
    case RreqMsg(m) => ProcessRREQTimely(n, from, ttl - 1, m, env);
    case RrepMsg(m) => ProcessRREPTimely(n, from, m, env);
    case RerrMsg(m) => ProcessRERRTimely(n, from, m, env);
  }

  lemma SendRREQTimely(n: Node, d: Addr, g: bool, now: int)
    requires Timely(n.tq, now)
    ensures Timely(SendRREQ(n, d, g, now).tq, now)
  {
    hide Timely, SetTimer, GetTTL;
    if d != n.ip {
      var (n1, m) := CreateRREQ(n, d, g);
      var t := if d in n1.table then n1.table[d := n1.table[d].(life := now + PATH_TRAVERSAL_TIME)] else n1.table;
      SetTimely(n.tq, now, 2 * FirstTtl(t, d, now) * NODE_TRAVERSAL_TIME, Job(RreqTimer, d));
    }
  }

  lemma DoLocalRepairTimely(n: Node, d: Addr, g: bool, now: int)
    requires Timely(n.tq, now)
    ensures Timely(DoLocalRepair(n, d, g, now).tq, now)
  {
    hide Timely, SetTimer;
    var ttl := (if d in n.table then n.table[d].lastHop else 0) + LOCAL_ADD_TTL;
    SetTimely(n.tq, now, 2 * ttl * NODE_TRAVERSAL_TIME, Job(LrTimer, d));
  }

  lemma AgentRequestTimely(n: Node, d: Addr, src: Addr, tcp: bool, env: Env)
    requires Timely(n.tq, env.now) && (n.reboot ==> src == n.ip)
    ensures Timely(AgentRequest(n, d, src, tcp, env).tq, env.now)
  {
    hide Timely, SendRREQ, DoLocalRepair, GenerateRERR;
    var n0 := n.(trace := n.trace + [Request(d, src == n.ip)]);
    SendRREQTimely(n0, d, tcp || env.junkG, env.now);
    DoLocalRepairTimely(n0, d, tcp, env.now);
    GenerateRERRFrame(ReplyTo(n0, d, false), d, false, d !in n0.table);
  }

  /**
   The assumptions: other events only happen while no timer is overdue, and the reboot timer is not
   rewritten in place (which a transit request during reboot does, out of order).
   */
  ghost predicate OnTime(n: Node, ev: Event, now: int) {
    0 <= now && (!ev.Alarm? ==> NoneDue(n.tq.list, now)) && (ev.Ask? && n.reboot ==> ev.src == n.ip)
  }

  ghost predicate QueueOk(n: Node) {
    Sorted(n.tq.list) && AlarmOk(n.tq)
  }

  lemma {:induction false} StepOnTime(n: Node, ev: Event, env: Env)
    requires QueueOk(n) && OnTime(n, ev, env.now)
    ensures QueueOk(Step(n, ev, env))
  {
    hide Receive, AgentRequest, ScheduleTimer;
    match ev
    case Recv(from, ttl, msg) => ReceiveTimely(n, from, ttl, msg, env);
    case Ask(d, src, tcp) => AgentRequestTimely(n, d, src, tcp, env);
    case Alarm => ScheduleTimerCorrect(n.(tq := n.tq.(alarm := None)), env);
  }

  ghost predicate OnTimeRun(n: Node, ms: seq<Moment>, n': Node)
    decreases ms
  {
    if ms == [] then n' == n
    else OnTime(n, ms[0].ev, ms[0].env.now) && OnTimeRun(Step(n, ms[0].ev, ms[0].env), ms[1..], n')
  }

  lemma {:induction false} RunOnTime(n: Node, ms: seq<Moment>, n': Node)
    requires QueueOk(n) && OnTimeRun(n, ms, n')
    ensures QueueOk(n')
    decreases ms
  {
    hide QueueOk, Step;
    if ms != [] {
      StepOnTime(n, ms[0].ev, ms[0].env);
      RunOnTime(Step(n, ms[0].ev, ms[0].env), ms[1..], n');
    }
  }

  /** Over such a run from boot the list stays sorted and the alarm is never late. */
  lemma {:induction false} AlarmNeverLate(ip: Addr, helloFlag: bool, now: int, ms: seq<Moment>, n: Node)
    requires OnTimeRun(Boot(ip, helloFlag, now), ms, n)
    ensures Sorted(n.tq.list)
    ensures n.tq.list != [] ==> n.tq.alarm.Some? && n.tq.alarm.value <= n.tq.list[0].timeout
  {
    var q := [Timer(now + DELETE_PERIOD, Job(RebootTimer, 0))];
    InsertSorted(q, Timer(now + PERIODIC_INTERVAL, Job(PeriodicTimer, 0)));
    SetTimerNeverLate(Queue(q, Arm(now, DELETE_PERIOD)), now, PERIODIC_INTERVAL, Job(PeriodicTimer, 0));
    RunOnTime(Boot(ip, helloFlag, now), ms, n);
  }

  /** What rewriting the reboot timer in place does to the order: it survives only if nothing is overtaken. */
  lemma ResetKeepsSortedIff(tq: Queue<Job>, now: int)
    requires Sorted(tq.list) && FirstReboot(tq.list) < |tq.list|
    ensures var q, i := tq.list, FirstReboot(tq.list);
            Sorted(ResetRebootTimer(tq, now).list)
            <==> (i == 0 || q[i - 1].timeout <= now + DELETE_PERIOD)
                 && (i + 1 == |q| || now + DELETE_PERIOD <= q[i + 1].timeout)
  {
    var q, i := tq.list, FirstReboot(tq.list);
    var q' := ResetRebootTimer(tq, now).list;
    assert forall j :: 0 <= j < |q| && j != i ==> q'[j] == q[j];
    assert q'[i].timeout == now + DELETE_PERIOD;
    if Sorted(q') {
      assert i > 0 ==> q'[i - 1].timeout <= q'[i].timeout;
      assert i + 1 < |q| ==> q'[i].timeout <= q'[i + 1].timeout;
    }
  }

  /**
   What it does to the alarm: the absolute time is passed as a delay when the head is the reboot
   timer, so the alarm stays in time exactly when the head is another one (or the clock reads 0).
   */
  lemma ResetKeepsAlarmIff(tq: Queue<Job>, now: int)
    requires AlarmOk(tq) && FirstReboot(tq.list) < |tq.list| && 0 <= now
    ensures AlarmOk(ResetRebootTimer(tq, now)) <==> FirstReboot(tq.list) != 0 || now == 0
  {
  }
}
