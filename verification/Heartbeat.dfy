/** The daemon's own clocks: its periodic timers over whole runs, when it says hello, and when a neighbour is missed. */
module Heartbeat {
  import opened Base
  import opened Params
  import opened Timers
  import opened Node
  import opened Steps
  import opened Effects
  import opened Schedule
  import opened Discoveries
  import opened Messages
  import R = Runs

  // ---- what most steps leave alone ----

  function OfKind(kind: Kind): Job -> bool {
    (j: Job) => j.kind == kind
  }

  /** The numbers of reboot, hello and periodic timers. */
  function Census(q: seq<Timer<Job>>): (nat, nat, nat) {
    (Count(q, OfKind(RebootTimer)), Count(q, OfKind(HelloTimer)), Count(q, OfKind(PeriodicTimer)))
  }

  predicate Broadcast(out: Out) {
    out.to.None?
  }

  /** No packet from the i-th on is a broadcast. */
  ghost predicate NoBroadcast(outs: seq<Out>, i: nat) {
    forall j :: i <= j < |outs| ==> !Broadcast(outs[j])
  }

  /** At most one timer watches each neighbour. */
  ghost predicate WatchedOnce(q: seq<Timer<Job>>) {
    forall nb {:trigger ActiveRouteJob(nb)} :: Count(q, ActiveRouteJob(nb)) <= 1
  }

  /** A hello is needed after the step exactly if it was needed before and no broadcast went out. */
  ghost predicate CountsBroadcasts(n: Node, n': Node) {
    && n'.ip == n.ip && n'.helloFlag == n.helloFlag && n'.reboot == n.reboot
    && n.outbox <= n'.outbox && (n'.needHello <==> n.needHello && NoBroadcast(n'.outbox, |n.outbox|))
  }

  /** In addition the daemon's own clocks are as before. */
  ghost predicate Steady(n: Node, n': Node) {
    && CountsBroadcasts(n, n')
    && Census(n'.tq.list) == Census(n.tq.list) && (WatchedOnce(n.tq.list) ==> WatchedOnce(n'.tq.list))
  }

  lemma SteadyTrans(a: Node, b: Node, c: Node)
    requires Steady(a, b) && Steady(b, c)
    ensures Steady(a, c)
  {
    hide Census, WatchedOnce, CountsBroadcasts;
    CountsTrans(a, b, c);
  }

  lemma CountsTrans(a: Node, b: Node, c: Node)
    requires CountsBroadcasts(a, b) && CountsBroadcasts(b, c)
    ensures CountsBroadcasts(a, c)
  {
  }

  lemma SteadySame(n: Node, n': Node)
    requires n'.ip == n.ip && n'.helloFlag == n.helloFlag && n'.reboot == n.reboot
    requires n'.outbox == n.outbox && n'.needHello == n.needHello && n'.tq.list == n.tq.list
    ensures Steady(n, n')
  {
  }

  lemma SendSteady(n: Node, to: Option<Addr>, ttl: int, msg: Msg)
    ensures Steady(n, Send(n, to, ttl, msg))
  {
    hide Census, WatchedOnce;
    var n' := Send(n, to, ttl, msg);
    if ttl != 0 {
      assert n'.outbox[|n.outbox|] == Out(to, ttl, msg);
    }
  }

  /** Only the timers change. */
  lemma QueueSteady(n: Node, q: seq<Timer<Job>>, alarm: Option<int>)
    requires Census(q) == Census(n.tq.list) && (WatchedOnce(n.tq.list) ==> WatchedOnce(q))
    ensures Steady(n, n.(tq := Queue(q, alarm)))
  {
    hide Census, WatchedOnce;
  }

  lemma RemoveOther(q: seq<Timer<Job>>, p: Job -> bool, p': Job -> bool)
    requires forall j :: p(j) ==> !p'(j)
    ensures Count(RemoveFirst(q, p), p') == Count(q, p')
  {
    hide First;
    var i := First(q, p);
    if i < |q| {
      CountRemoveAt(q, i, p');
    }
  }

  lemma RemoveFewer(q: seq<Timer<Job>>, p: Job -> bool, p': Job -> bool)
    ensures Count(RemoveFirst(q, p), p') <= Count(q, p')
  {
    hide First;
    var i := First(q, p);
    if i < |q| {
      CountRemoveAt(q, i, p');
    }
  }

  lemma RemoveSteady(q: seq<Timer<Job>>, p: Job -> bool)
    requires forall j :: p(j) ==> !j.kind.RebootTimer? && !j.kind.HelloTimer? && !j.kind.PeriodicTimer?
    ensures Census(RemoveFirst(q, p)) == Census(q) && (WatchedOnce(q) ==> WatchedOnce(RemoveFirst(q, p)))
  {
    hide RemoveFirst;
    RemoveOther(q, p, OfKind(RebootTimer));
    RemoveOther(q, p, OfKind(HelloTimer));
    RemoveOther(q, p, OfKind(PeriodicTimer));
    forall nb ensures Count(RemoveFirst(q, p), ActiveRouteJob(nb)) <= Count(q, ActiveRouteJob(nb)) {
      RemoveFewer(q, p, ActiveRouteJob(nb));
    }
  }

  lemma InsertCensus(q: seq<Timer<Job>>, t: Timer<Job>)
    ensures var c, c', k := Census(q), Census(Insert(q, t)), t.what.kind;
            && c'.0 == c.0 + (if k.RebootTimer? then 1 else 0) && c'.1 == c.1 + (if k.HelloTimer? then 1 else 0)
            && c'.2 == c.2 + (if k.PeriodicTimer? then 1 else 0)
  {
    hide Insert;
    CountInsert(q, t, OfKind(RebootTimer));
    CountInsert(q, t, OfKind(HelloTimer));
    CountInsert(q, t, OfKind(PeriodicTimer));
  }

  lemma InsertWatched(q: seq<Timer<Job>>, t: Timer<Job>)
    requires t.what.kind.ActiveRouteTimer? ==> Count(q, ActiveRouteJob(t.what.data)) == 0
    ensures WatchedOnce(q) ==> WatchedOnce(Insert(q, t))
  {
    hide Insert;
    forall nb ensures Count(Insert(q, t), ActiveRouteJob(nb))
                      == Count(q, ActiveRouteJob(nb)) + if ActiveRouteJob(nb)(t.what) then 1 else 0
    {
      CountInsert(q, t, ActiveRouteJob(nb));
    }
  }

  // ---- received messages ----

  /** Who is heard of has one timer: a queued one starts anew, and a hello starts one. */
  lemma NeighborWatch(n: Node, nb: Addr, src: Addr, seqNum: u32, life: int, now: int)
    ensures var q, q' := n.tq.list, NeighborUpdate(n, nb, src, seqNum, life, now).tq.list;
            var c, t := Count(q, ActiveRouteJob(nb)), Timer(now + 4000, Job(ActiveRouteTimer, nb));
            && Census(q') == Census(q) && (WatchedOnce(q) ==> WatchedOnce(q'))
            && (WatchedOnce(q) ==> Count(q', ActiveRouteJob(nb)) == if c == 1 || src == 0 then 1 else 0)
            && (c > 0 || src == 0 ==> t in q')
  {
    hide First, Insert, RemoveFirst, NeighborUpdate, Census, WatchedOnce;
    var q := n.tq.list;
    var q1 := RemoveFirst(q, DiscoveryJob(nb));
    var q2 := RemoveFirst(q1, ActiveRouteJob(nb));
    var t := Timer(now + 4000, Job(ActiveRouteTimer, nb));
    NeighborTimers(n, nb, src, seqNum, life, now);
    RemoveSteady(q, DiscoveryJob(nb));
    RemoveSteady(q1, ActiveRouteJob(nb));
    RemoveOther(q, DiscoveryJob(nb), ActiveRouteJob(nb));
    CountRemoveFirst(q1, ActiveRouteJob(nb));
    CountZero(q1, ActiveRouteJob(nb));
    InsertCensus(q1, t);
    InsertCensus(q2, t);
    CountInsert(q1, t, ActiveRouteJob(nb));
    CountInsert(q2, t, ActiveRouteJob(nb));
    WatchBound(q, nb);
    Inserted(q1, t);
    Inserted(q2, t);
    if Count(q1, ActiveRouteJob(nb)) == 0 {
      NothingRemoved(q1, nb);
      InsertWatched(q1, t);
    } else if WatchedOnce(q) {
      InsertWatched(q2, t);
    }
  }

  lemma WatchBound(q: seq<Timer<Job>>, nb: Addr)
    ensures WatchedOnce(q) ==> Count(q, ActiveRouteJob(nb)) <= 1
  {
  }

  lemma Inserted(q: seq<Timer<Job>>, t: Timer<Job>)
    ensures t in Insert(q, t)
  {
  }

  lemma NothingRemoved(q: seq<Timer<Job>>, nb: Addr)
    requires First(q, ActiveRouteJob(nb)) == |q|
    ensures RemoveFirst(q, ActiveRouteJob(nb)) == q
  {
  }

  lemma NeighborSteady(n: Node, nb: Addr, src: Addr, seqNum: u32, life: int, now: int)
    ensures Steady(n, NeighborUpdate(n, nb, src, seqNum, life, now))
  {
    hide NeighborUpdate, Census, WatchedOnce;
    NeighborUpdateEffect(n, nb, src, seqNum, life, now);
    NeighborWatch(n, nb, src, seqNum, life, now);
  }

  lemma GenerateSteady(n: Node, dst: Addr, nFlag: bool, brd: bool)
    ensures Steady(n, GenerateRERR(n, dst, nFlag, brd))
  {
    hide Send, Steady;
    var cnt := PrecCount(n.table, dst);
    SendSteady(n, if cnt == 1 then Some(n.table[dst].prec[0]) else None, 1,
               RerrMsg(Rerr(nFlag, 1, [Unreach(dst, SeqOf(n.table, dst))])));
    SteadySame(n, n);
  }

  lemma RouteSteady(n: Node, dst: Addr, seqNum: u32, hop: int, nhop: Addr, life: int, keep: bool, now: int)
    ensures Steady(n, RouteUpdate(n, dst, seqNum, hop, nhop, life, keep, now))
  {
    hide GenerateRERR, RouteTable, Rewrites, HasDiscovery, RemoveFirst, First, Census, WatchedOnce;
    var n1 := n.(table := RouteTable(n.table, dst, seqNum, hop, nhop, life, keep),
                 fib := if Rewrites(n.table, dst, seqNum, hop, nhop) then n.fib[dst := nhop] else n.fib);
    var n3 := EndDiscovery(ReplyTo(n1, dst, true), dst, now);
    assert n3.tq.list == RemoveFirst(n.tq.list, DiscoveryJob(dst)) by { EndedList(ReplyTo(n1, dst, true), dst, now); }
    RemoveSteady(n.tq.list, DiscoveryJob(dst));
    assert Steady(n, n3);
    GenerateSteady(n3, dst, true, false);
    SteadyTrans(n, n3, GenerateRERR(n3, dst, true, false));
    hide Steady;
  }

  lemma EndedList(n: Node, d: Addr, now: int)
    ensures EndDiscovery(n, d, now).tq.list == RemoveFirst(n.tq.list, DiscoveryJob(d))
  {
    hide First;
  }

  lemma RecvRREQSteady(n: Node, from: Addr, m: Rreq, now: int)
    ensures Steady(n, RecvRREQ(n, from, m, now).0)
  {
    hide NeighborUpdate, RouteUpdate, RecvRREQ, Steady;
    var s := if m.src == from then m.srcSeq else 0;
    var n1 := NeighborUpdate(n, from, m.src, s, now + NEIGHBOR_LIFE, now);
    var n2 := n1.(fw := n1.fw[(m.src, m.id) := now + PATH_TRAVERSAL_TIME],
                  trace := n1.trace + [Handled(m.src, m.id, now)]);
    var n3 := if m.src != from then ReverseRouteUpdate(n2, from, m, now) else n2;
    var n' := RecvRREQ(n, from, m, now).0;
    RecvRREQShape(n, from, m, now);
    NeighborSteady(n, from, m.src, s, now + NEIGHBOR_LIFE, now);
    SteadySame(n1, n2);
    RouteSteady(n2, m.src, m.srcSeq, m.hop + 1, from, ReverseNew(n2.table, m, now), true, now);
    SteadySame(n2, n2);
    SteadySame(n, n);
    SteadyTrans(n1, n2, n3);
    SteadyTrans(n, n1, n3);
    SteadySame(n3, n3.(localSeq := n'.localSeq));
    SteadyTrans(n, n3, n3.(localSeq := n'.localSeq));
  }

  lemma UnicastSteady(n: Node, toward: Addr, m: Rrep, now: int)
    ensures Steady(n, Unicast(n, toward, m, now))
  {
    hide GetNextHop, Send, Steady;
    GetNextHopEffect(n, toward, now);
    var (n1, next) := GetNextHop(n, toward, now);
    SteadySame(n, n1);
    SendSteady(n1, Some(next), -1, RrepMsg(m));
    SteadyTrans(n, n1, Send(n1, Some(next), -1, RrepMsg(m)));
  }

  lemma AnswerSteady(n: Node, from: Addr, m: Rreq, env: Env)
    ensures Steady(n, AnswerRREQ(n, from, m, env))
  {
    hide CreateRREP, CreateGRREP, Unicast, Steady;
    CreateRREPCores(n, from, m, env);
    var (n1, rrep) := CreateRREP(n, from, m, env);
    SteadySame(n, n1);
    UnicastSteady(n1, m.src, rrep, env.now);
    var n2 := Unicast(n1, m.src, rrep, env.now);
    SteadyTrans(n, n1, n2);
    var grrep := CreateGRREP(n2, m, env);
    UnicastSteady(n2, m.dest, grrep, env.now);
    SteadyTrans(n, n2, Unicast(n2, m.dest, grrep, env.now));
  }

  lemma RreqSteady(n: Node, from: Addr, ttl: int, m: Rreq, env: Env)
    ensures Steady(n, ProcessRREQ(n, from, ttl, m, env))
  {
    hide RebootRREQ, RecvRREQ, AnswerRREQ, Send, Steady;
    if n.reboot {
      RebootRREQFrame(n, from, m, env.now);
      SteadySame(n, RebootRREQ(n, from, m, env.now));
    } else {
      var (n1, m1, v) := RecvRREQ(n, from, m, env.now);
      RecvRREQSteady(n, from, m, env.now);
      SendSteady(n1, None, ttl, RreqMsg(m1));
      SteadyTrans(n, n1, Send(n1, None, ttl, RreqMsg(m1)));
      AnswerSteady(n1, from, m, env);
      SteadyTrans(n, n1, AnswerRREQ(n1, from, m, env));
    }
  }

  lemma RrepSteady(n: Node, from: Addr, m: Rrep, env: Env)
    ensures Steady(n, ProcessRREP(n, from, m, env))
  {
    hide RebootRREP, RecvRREP, NeighborUpdate, RouteUpdate, Unicast, Steady;
    if n.reboot {
      RebootRREPFrame(n, from, m, env.now);
      SteadySame(n, RebootRREP(n, from, m, env.now));
    } else {
      var s := if m.dest == from then m.destSeq else 0;
      var n1 := NeighborUpdate(n, from, m.src, s, env.now + NEIGHBOR_LIFE, env.now);
      var n2 := if m.dest != from then ForwardRouteUpdate(n1, from, m, env.now) else n1;
      var (n3, m', _) := RecvRREP(n, from, m, env.now);
      RecvRREPShape(n, from, m, env.now);
      NeighborSteady(n, from, m.src, s, env.now + NEIGHBOR_LIFE, env.now);
      RouteSteady(n1, m.dest, m.destSeq, m.hop + 1, from, env.now + m.life, false, env.now);
      SteadySame(n1, n1);
      SteadyTrans(n, n1, n2);
      SteadySame(n2, n3);
      SteadyTrans(n, n2, n3);
      UnicastSteady(n3, m.src, m', env.now);
      SteadyTrans(n, n3, Unicast(n3, m.src, m', env.now));
    }
  }

  lemma ForwardSteady(n: Node, from: Addr, m: Rerr, now: int)
    ensures Steady(n, ForwardRERR(n, from, m, now))
  {
    hide UpdateValid, NewDests, HasPrec, Send, Steady;
    var n1 := UpdateValid(n, m.dests, from, now);
    UpdateValidFrame(n, m.dests, from, now);
    SteadySame(n, n1);
    var lost := NewDests(n, m.dests, from, now);
    SendSteady(n1, None, 1, RerrMsg(Rerr(m.nFlag, U8(|lost|), lost)));
    SteadyTrans(n, n1, Send(n1, None, 1, RerrMsg(Rerr(m.nFlag, U8(|lost|), lost))));
  }

  lemma NoticeSteady(n: Node, from: Addr, m: Rerr, now: int)
    ensures Steady(n, LocalRepairRERR(n, from, m, now))
  {
    hide GenerateRERR, Steady;
    SteadySame(n, n);
    if |m.dests| > 0 && m.dests[0].dest in n.table {
      var d := m.dests[0].dest;
      var n1 := n.(table := n.table[d := n.table[d].(seqNum := m.dests[0].seqNum)]);
      SteadySame(n, n1);
      GenerateSteady(n1, d, true, false);
      SteadyTrans(n, n1, GenerateRERR(n1, d, true, false));
    }
  }

  lemma RerrSteady(n: Node, from: Addr, m: Rerr, env: Env)
    ensures Steady(n, ProcessRERR(n, from, m, env))
  {
    hide NeighborUpdate, NeighborTable, UpdateInvalid, UpdateValid, ForwardRERR, LocalRepairRERR, Steady;
    var life := env.now + NEIGHBOR_LIFE;
    if n.reboot {
      var n1 := n.(table := UpdateInvalid(NeighborTable(n.table, from, 0, life), m.dests));
      UpdateValidFrame(n1, m.dests, from, env.now);
      SteadySame(n, UpdateValid(n1, m.dests, from, env.now));
    } else {
      var n1 := NeighborUpdate(n, from, from, 0, life, env.now);
      var n2 := n1.(table := UpdateInvalid(n1.table, m.dests));
      NeighborSteady(n, from, from, 0, life, env.now);
      SteadySame(n1, n2);
      SteadyTrans(n, n1, n2);
      NoticeSteady(n2, from, m, env.now);
      ForwardSteady(n2, from, m, env.now);
      SteadyTrans(n, n2, if m.nFlag then LocalRepairRERR(n2, from, m, env.now) else ForwardRERR(n2, from, m, env.now));
    }
  }

  // ---- requests and timers ----

  lemma SearchTimerSteady(n: Node, delay: int, j: Job, now: int)
    requires j.kind.RreqTimer? || j.kind.LrTimer?
    ensures Steady(n, n.(tq := SetTimer(n.tq, now, delay, j)))
  {
    hide Insert, Census, WatchedOnce;
    var t := Timer(now + delay, j);
    InsertCensus(n.tq.list, t);
    InsertWatched(n.tq.list, t);
    assert n.(tq := SetTimer(n.tq, now, delay, j)).tq.list == Insert(n.tq.list, t);
  }

  lemma SearchSteady(n: Node, d: Addr, g: bool, now: int)
    ensures Steady(n, SendRREQ(n, d, g, now)) && Steady(n, DoLocalRepair(n, d, g, now))
  {
    hide SetTimer, GetTTL, Send, Steady;
    SteadySame(n, n);
    var (n1, m) := CreateRREQ(n, d, g);
    var t := if d in n1.table then n1.table[d := n1.table[d].(life := now + PATH_TRAVERSAL_TIME)] else n1.table;
    var ttl := FirstTtl(t, d, now);
    var n2 := n1.(table := t, pending := n1.pending + [Pending(m, 0, ttl)], trace := n1.trace + [Originated(d)]);
    SearchSent(n, n2, d, 2 * ttl * NODE_TRAVERSAL_TIME, Job(RreqTimer, d), ttl, m, now);
    var ring := (if d in n.table then n.table[d].lastHop else 0) + LOCAL_ADD_TTL;
    SearchSent(n, n1, d, 2 * ring * NODE_TRAVERSAL_TIME, Job(LrTimer, d), ring, m, now);
  }

  lemma SearchSent(n: Node, n1: Node, d: Addr, delay: int, j: Job, ttl: int, m: Rreq, now: int)
    requires j.kind.RreqTimer? || j.kind.LrTimer?
    requires n1.ip == n.ip && n1.helloFlag == n.helloFlag && n1.reboot == n.reboot
    requires n1.outbox == n.outbox && n1.needHello == n.needHello && n1.tq == n.tq
    ensures Steady(n, Send(n1.(tq := SetTimer(n1.tq, now, delay, j)), None, ttl, RreqMsg(m)))
  {
    hide SetTimer, Send, Steady;
    var n2 := n1.(tq := SetTimer(n1.tq, now, delay, j));
    SteadySame(n, n1);
    SearchTimerSteady(n1, delay, j, now);
    SteadyTrans(n, n1, n2);
    SendSteady(n2, None, ttl, RreqMsg(m));
    SteadyTrans(n, n2, Send(n2, None, ttl, RreqMsg(m)));
  }

  lemma ResetSteady(n: Node, now: int)
    ensures Steady(n, n.(tq := ResetRebootTimer(n.tq, now)))
  {
    hide WatchedOnce;
    var q' := ResetRebootTimer(n.tq, now).list;
    SameJobsSameCount(n.tq.list, q', OfKind(RebootTimer));
    SameJobsSameCount(n.tq.list, q', OfKind(HelloTimer));
    SameJobsSameCount(n.tq.list, q', OfKind(PeriodicTimer));
    forall nb ensures Count(q', ActiveRouteJob(nb)) == Count(n.tq.list, ActiveRouteJob(nb)) {
      SameJobsSameCount(n.tq.list, q', ActiveRouteJob(nb));
    }
    hide ResetRebootTimer, Count;
    SameWatch(n.tq.list, q');
    QueueSteady(n, q', ResetRebootTimer(n.tq, now).alarm);
  }

  lemma SameWatch(q: seq<Timer<Job>>, q': seq<Timer<Job>>)
    requires forall nb :: Count(q', ActiveRouteJob(nb)) == Count(q, ActiveRouteJob(nb))
    ensures WatchedOnce(q') <==> WatchedOnce(q)
  {
  }

  lemma AgentSteady(n: Node, d: Addr, src: Addr, tcp: bool, env: Env)
    ensures Steady(n, AgentRequest(n, d, src, tcp, env))
  {
    hide SendRREQ, DoLocalRepair, GenerateRERR, ResetRebootTimer, Steady;
    var n0 := n.(trace := n.trace + [Request(d, src == n.ip)]);
    var n1 := n0.(tq := ResetRebootTimer(n0.tq, env.now));
    SteadySame(n, n0);
    ResetSteady(n0, env.now);
    SteadySame(n1, ReplyTo(n1, d, false));
    SteadyTrans(n, n0, n1);
    SteadyTrans(n, n1, ReplyTo(n1, d, false));
    SteadySame(n, ReplyTo(n0, d, true));
    SteadySame(n, ReplyTo(n0, d, false));
    GenerateSteady(ReplyTo(n0, d, false), d, false, d !in n0.table);
    SteadyTrans(n, ReplyTo(n0, d, false), GenerateRERR(ReplyTo(n0, d, false), d, false, d !in n0.table));
    GenerateSteady(ReplyTo(n1, d, false), d, false, true);
    SteadyTrans(n, ReplyTo(n1, d, false), GenerateRERR(ReplyTo(n1, d, false), d, false, true));
    SearchSteady(n0, d, tcp || env.junkG, env.now);
    SteadyTrans(n, n0, SendRREQ(n0, d, tcp || env.junkG, env.now));
    SearchSteady(n0, d, tcp, env.now);
    SteadyTrans(n, n0, DoLocalRepair(n0, d, tcp, env.now));
  }

  lemma ResendSteady(n: Node, d: Addr, now: int)
    ensures Steady(n, ResendRREQ(n, d, now))
  {
    hide SetTimer, NextRing, Send, Steady;
    var i := FirstPending(n.pending, d);
    SteadySame(n, n);
    if i < |n.pending| {
      var p := NextRing(n.pending[i]);
      var m := p.rreq.(id := U32(n.rreqId + 1), destSeq := SeqOf(n.table, d), srcSeq := U32(n.localSeq + 1));
      var n1 := n.(rreqId := U32(n.rreqId + 1), localSeq := U32(n.localSeq + 1),
                   pending := n.pending[i := p.(rreq := m)], trace := n.trace + [Resent(d)]);
      SearchSent(n, n1, d, 2 * p.ttl * NODE_TRAVERSAL_TIME, Job(RreqTimer, d), p.ttl, m, now);
      SteadySame(n, ReplyTo(n.(pending := n.pending[..i] + n.pending[i + 1..]), d, false));
    }
  }

  lemma FailSteady(n: Node, d: Addr, now: int)
    ensures Steady(n, LRHandler(n, d, now))
  {
    hide GenerateRERR, Steady;
    var n1 := ReplyTo(n, d, false);
    var n2 := if d in n1.table
              then n1.(table := n1.table[d := n1.table[d].(lastHop := n1.table[d].hop, hop := INFINITY,
                                                           life := now + DELETE_PERIOD, flag := Invalid)])
              else n1;
    SteadySame(n, n2);
    GenerateSteady(n2, d, false, false);
    var n3 := GenerateRERR(n2, d, false, false);
    SteadyTrans(n, n2, n3);
    SteadySame(n3, LRHandler(n, d, now));
    SteadyTrans(n, n3, LRHandler(n, d, now));
  }

  /** All that the daemon does but for its own clocks: messages, requests, and the other timers. */
  datatype Act = Hears(from: Addr, ttl: int, msg: Msg) | Asked(d: Addr, src: Addr, tcp: bool) | Fires(j: Job)

  function Do(n: Node, a: Act, env: Env): Node {
    match a
    case Hears(from, ttl, msg) => Receive(n, from, ttl, msg, env)
    case Asked(d, src, tcp) => AgentRequest(n, d, src, tcp, env)
    case Fires(j) => Handle(n, j, env)
  }

  predicate OwnClock(a: Act) {
    a.Fires? && (a.j.kind.RebootTimer? || a.j.kind.HelloTimer? || a.j.kind.PeriodicTimer?)
  }

  lemma {:induction false} OthersSteady(n: Node, a: Act, env: Env)
    requires !OwnClock(a)
    ensures Steady(n, Do(n, a, env))
  {
    hide ProcessRREQ, ProcessRREP, ProcessRERR, AgentRequest, ResendRREQ, LRHandler, NeighborTimeout, Steady;
    SteadySame(n, n);
    match a
    case Hears(from, ttl, msg) =>
      match msg {
        case RreqMsg(m) => RreqSteady(n, from, ttl - 1, m, env);
        case RrepMsg(m) => RrepSteady(n, from, m, env);
        case RerrMsg(m) => RerrSteady(n, from, m, env);
      }
    case Asked(d, src, tcp) => AgentSteady(n, d, src, tcp, env);
    case Fires(j) =>
      ResendSteady(n, j.data, env.now);
      FailSteady(n, j.data, env.now);
      SilentSteady(n, j.data, env);
  }

  lemma SilentSteady(n: Node, nb: Addr, env: Env)
    ensures Steady(n, NeighborTimeout(n, nb, env))
  {
    hide BreakVia, BrokenVia, BreakNeighbor, Steady;
    SteadySame(n, NeighborTimeout(n, nb, env));
  }

  // ---- hellos ----

  /** The acts, one after the other, in their environments. */
  function DoAll(n: Node, acts: seq<(Act, Env)>): Node
    decreases acts
  {
    if acts == [] then n else DoAll(Do(n, acts[0].0, acts[0].1), acts[1..])
  }

  predicate AboutHello(a: Act) {
    a.Fires? && (a.j.kind.RebootTimer? || a.j.kind.HelloTimer?)
  }

  lemma PeriodicCounts(n: Node, env: Env)
    ensures CountsBroadcasts(n, PeriodicHandler(n, env))
  {
    hide RefreshAll, Keys, AddTimer;
    var n1 := n.(tq := AddTimer(n.tq, env.now, PERIODIC_INTERVAL, Job(PeriodicTimer, 0)));
    RefreshAllFrame(n1, Keys(n1.table.Keys), env);
  }

  lemma ActCounts(n: Node, a: Act, env: Env)
    requires !AboutHello(a)
    ensures CountsBroadcasts(n, Do(n, a, env))
  {
    if a.Fires? && a.j.kind.PeriodicTimer? {
      PeriodicCounts(n, env);
    } else {
      OthersSteady(n, a, env);
    }
    hide CountsBroadcasts, PeriodicHandler, Census, WatchedOnce;
  }

  lemma {:induction false} ActsCount(n: Node, acts: seq<(Act, Env)>)
    requires forall i :: 0 <= i < |acts| ==> !AboutHello(acts[i].0)
    ensures CountsBroadcasts(n, DoAll(n, acts))
    decreases acts
  {
    if acts != [] {
      hide Do, CountsBroadcasts;
      var n1 := Do(n, acts[0].0, acts[0].1);
      ActCounts(n, acts[0].0, acts[0].1);
      ActsCount(n1, acts[1..]);
      CountsTrans(n, n1, DoAll(n1, acts[1..]));
    }
  }

  function HelloOut(n: Node): Out {
    Out(None, 1, RrepMsg(Rrep(0, n.ip, n.localSeq, 0, 4000)))
  }

  /** The next hello comes two seconds later, and a needed one is a RREP of the node about itself to all neighbours. */
  lemma HelloIs(n: Node, now: int)
    ensures var n' := SendHello(n, now);
            && n'.needHello && n'.tq.list == Insert(n.tq.list, Timer(now + 2000, Job(HelloTimer, 0)))
            && n'.outbox == n.outbox + (if n.needHello then [HelloOut(n)] else [])
            && n' == n.(tq := n'.tq, outbox := n'.outbox, needHello := true)
  {
    hide Insert;
  }

  /** Between two hellos of a daemon: the second one is sent exactly if no broadcast went out since the first. */
  lemma {:induction false} HelloUnlessHeard(n: Node, now: int, acts: seq<(Act, Env)>, now': int)
    requires forall i :: 0 <= i < |acts| ==> !AboutHello(acts[i].0)
    ensures var n1 := SendHello(n, now);
            var n2 := DoAll(n1, acts);
            && n1.outbox <= n2.outbox
            && SendHello(n2, now').outbox
               == n2.outbox + if NoBroadcast(n2.outbox, |n1.outbox|)
                              then [HelloOut(n2)] else []
  {
    hide SendHello, DoAll, NoBroadcast, Census, WatchedOnce;
    HelloIs(n, now);
    ActsCount(SendHello(n, now), acts);
    HelloIs(DoAll(SendHello(n, now), acts), now');
  }

  // ---- the daemon's own clocks over whole runs ----

  /** One reboot timer during reboot, afterwards one hello timer if hellos are on, and always one periodic timer. */
  ghost predicate Beats(n: Node) {
    Census(n.tq.list) == (if n.reboot then 1 else 0, if !n.reboot && n.helloFlag then 1 else 0, 1)
  }

  ghost predicate ClocksOk(n: Node) {
    Beats(n) && WatchedOnce(n.tq.list)
  }

  lemma SteadyClocks(n: Node, n': Node)
    requires Steady(n, n') && ClocksOk(n)
    ensures ClocksOk(n')
  {
  }

  /** The queue once its head has been fired. */
  lemma HeadCensus(q: seq<Timer<Job>>)
    requires q != []
    ensures Census(q).0 == Census(q[1..]).0 + (if q[0].what.kind.RebootTimer? then 1 else 0)
    ensures Census(q).1 == Census(q[1..]).1 + (if q[0].what.kind.HelloTimer? then 1 else 0)
    ensures Census(q).2 == Census(q[1..]).2 + (if q[0].what.kind.PeriodicTimer? then 1 else 0)
    ensures WatchedOnce(q) ==> WatchedOnce(q[1..])
  {
  }

  /** A timer that is inserted, but not for a neighbour. */
  lemma InsertedCensus(q: seq<Timer<Job>>, timeout: int, kind: Kind)
    requires !kind.ActiveRouteTimer?
    ensures var c, c' := Census(q), Census(Insert(q, Timer(timeout, Job(kind, 0))));
            && c'.0 == c.0 + (if kind.RebootTimer? then 1 else 0) && c'.1 == c.1 + (if kind.HelloTimer? then 1 else 0)
            && c'.2 == c.2 + (if kind.PeriodicTimer? then 1 else 0)
    ensures WatchedOnce(q) ==> WatchedOnce(Insert(q, Timer(timeout, Job(kind, 0))))
  {
    hide Insert, Census, WatchedOnce;
    InsertCensus(q, Timer(timeout, Job(kind, 0)));
    InsertWatched(q, Timer(timeout, Job(kind, 0)));
  }

  lemma PeriodicIs(n: Node, env: Env)
    ensures var n' := PeriodicHandler(n, env);
            && n'.tq.list == Insert(n.tq.list, Timer(env.now + 1000, Job(PeriodicTimer, 0)))
            && n'.reboot == n.reboot && n'.helloFlag == n.helloFlag
            && forall k :: k in n'.fw <==> k in n.fw && env.now < n.fw[k]
  {
    hide RefreshAll, Keys, Insert;
    var n1 := n.(tq := AddTimer(n.tq, env.now, PERIODIC_INTERVAL, Job(PeriodicTimer, 0)));
    RefreshAllFrame(n1, Keys(n1.table.Keys), env);
  }

  lemma RebootIs(n: Node, now: int)
    ensures var n' := RebootHandler(n, now);
            && !n'.reboot && n'.helloFlag == n.helloFlag
            && n'.tq.list == (if n.helloFlag then Insert(n.tq.list, Timer(now + 2000, Job(HelloTimer, 0)))
                              else n.tq.list)
            && (forall k :: k in n'.fib <==> k in n.fib || IsActive(n.table, k))
            && (forall k :: IsActive(n.table, k) ==> n'.fib[k] == n.table[k].next)
  {
    hide Insert, SendHello;
    HelloIs(RebootDone(n), now);
  }

  lemma FiredClocks(n: Node, env: Env)
    requires ClocksOk(n) && n.tq.list != [] && n.tq.list[0].timeout <= env.now
    ensures ClocksOk(FireHead(n, env))
  {
    hide Handle, SendHello, PeriodicHandler, RebootHandler, Insert, Census, WatchedOnce;
    var j, n1 := n.tq.list[0].what, Handle(n, n.tq.list[0].what, env);
    HeadStays(n, env);
    HeadCensus(n.tq.list);
    HeadCensus(n1.tq.list);
    InsertedCensus(n.tq.list, env.now + 2000, HelloTimer);
    InsertedCensus(n.tq.list, env.now + 1000, PeriodicTimer);
    if OwnClock(Fires(j)) {
      HelloIs(n, env.now);
      PeriodicIs(n, env);
      RebootIs(n, env.now);
      assert Handle(n, j, env) == (match j.kind case RebootTimer => RebootHandler(n, env.now)
                                                case HelloTimer => SendHello(n, env.now)
                                                case _ => PeriodicHandler(n, env)) by { OwnHandlers(n, j, env); }
    } else {
      OthersSteady(n, Fires(j), env);
      assert Do(n, Fires(j), env) == n1;
    }
  }

  lemma OwnHandlers(n: Node, j: Job, env: Env)
    requires OwnClock(Fires(j))
    ensures Handle(n, j, env) == match j.kind case RebootTimer => RebootHandler(n, env.now)
                                              case HelloTimer => SendHello(n, env.now)
                                              case _ => PeriodicHandler(n, env)
  {
  }

  lemma {:induction false} ScheduleClocks(n: Node, env: Env)
    requires ClocksOk(n)
    ensures ClocksOk(ScheduleTimer(n, env))
    decreases CountDue(n.tq.list, env.now)
  {
    hide ClocksOk, FireHead;
    if n.tq.list == [] || env.now < n.tq.list[0].timeout {
      SameClocks(n, ScheduleTimer(n, env));
    } else {
      FiredClocks(n, env);
      ScheduleClocks(FireHead(n, env), env);
    }
  }

  lemma SameClocks(n: Node, n': Node)
    requires ClocksOk(n) && n'.tq.list == n.tq.list && n'.reboot == n.reboot && n'.helloFlag == n.helloFlag
    ensures ClocksOk(n')
  {
  }

  lemma StepClocks(n: Node, ev: R.Event, env: Env)
    requires ClocksOk(n)
    ensures ClocksOk(R.Step(n, ev, env))
  {
    hide ClocksOk, Steady, Receive, AgentRequest, ScheduleTimer;
    match ev
    case Recv(from, ttl, msg) =>
      OthersSteady(n, Hears(from, ttl, msg), env);
      SteadyClocks(n, Do(n, Hears(from, ttl, msg), env));
    case Ask(d, src, tcp) =>
      OthersSteady(n, Asked(d, src, tcp), env);
      SteadyClocks(n, Do(n, Asked(d, src, tcp), env));
    case Alarm =>
      SameClocks(n, n.(tq := n.tq.(alarm := None)));
      ScheduleClocks(n.(tq := n.tq.(alarm := None)), env);
  }

  lemma {:induction false} RunClocks(n: Node, ms: seq<R.Moment>, n': Node)
    requires ClocksOk(n) && R.AnyRun(n, ms, n')
    ensures ClocksOk(n')
    decreases ms
  {
    hide ClocksOk, R.Step;
    if ms != [] {
      StepClocks(n, ms[0].ev, ms[0].env);
      RunClocks(R.Step(n, ms[0].ev, ms[0].env), ms[1..], n');
    }
  }

  /**
   Over every run from boot, whatever happens: the periodic timer is always queued exactly once, the
   reboot timer exactly until reboot is over, the hello timer from then on if hellos are enabled, and
   there is at most one timer for each neighbour.
   */
  lemma {:induction false} ClocksNeverStop(ip: Addr, helloFlag: bool, now: int, ms: seq<R.Moment>, n: Node)
    requires R.AnyRun(R.Boot(ip, helloFlag, now), ms, n)
    ensures Beats(n) && WatchedOnce(n.tq.list)
  {
    BootClocks(ip, helloFlag, now);
    RunClocks(R.Boot(ip, helloFlag, now), ms, n);
  }

  /** A daemon boots for fifteen seconds, and looks after its table every second. */
  lemma BootsWithTimers(ip: Addr, helloFlag: bool, now: int)
    ensures var n := R.Boot(ip, helloFlag, now);
            && n.tq.list == [Timer(now + 1000, Job(PeriodicTimer, 0)), Timer(now + 15000, Job(RebootTimer, 0))]
            && n.tq.alarm == Some(now + 1000)
  {
  }

  /** A request for a transit packet during reboot makes it last fifteen seconds from then on. */
  lemma TransitProlongsReboot(n: Node, d: Addr, src: Addr, tcp: bool, env: Env)
    requires n.reboot && src != n.ip && Beats(n)
    ensures var q, q' := n.tq.list, AgentRequest(n, d, src, tcp, env).tq.list;
            && |q'| == |q| && exists i :: 0 <= i < |q| && q[i].what.kind.RebootTimer?
                                && q' == q[i := Timer(env.now + 15000, q[i].what)]
  {
    hide GenerateRERR, SendRREQ, DoLocalRepair;
    var n1 := ReplyTo(n.(trace := n.trace + [Request(d, false)], tq := ResetRebootTimer(n.tq, env.now)), d, false);
    GenerateRERRFrame(n1, d, false, true);
    FirstRebootIs(n.tq.list);
    assert AgentRequest(n, d, src, tcp, env).tq == ResetRebootTimer(n.tq, env.now);
  }

  lemma {:induction false} FirstRebootIs(q: seq<Timer<Job>>)
    ensures FirstReboot(q) < |q| <==> Count(q, OfKind(RebootTimer)) > 0
  {
    if q != [] && !q[0].what.kind.RebootTimer? {
      FirstRebootIs(q[1..]);
    }
  }

  lemma BootClocks(ip: Addr, helloFlag: bool, now: int)
    ensures ClocksOk(R.Boot(ip, helloFlag, now))
  {
    hide Insert;
    var q := [Timer(now + DELETE_PERIOD, Job(RebootTimer, 0))];
    assert Census(q) == (1, 0, 0) && WatchedOnce(q) by { OneTimerCensus(q[0]); }
    InsertedCensus(q, now + PERIODIC_INTERVAL, PeriodicTimer);
    assert R.Boot(ip, helloFlag, now).tq.list == Insert(q, Timer(now + PERIODIC_INTERVAL, Job(PeriodicTimer, 0)));
    hide Census, WatchedOnce;
  }

  lemma CountOne(t: Timer<Job>, p: Job -> bool)
    ensures Count([t], p) == if p(t.what) then 1 else 0
  {
  }

  lemma OneTimerCensus(t: Timer<Job>)
    requires t.what.kind.RebootTimer?
    ensures Census([t]) == (1, 0, 0) && WatchedOnce([t])
  {
    CountOne(t, OfKind(RebootTimer));
    CountOne(t, OfKind(HelloTimer));
    CountOne(t, OfKind(PeriodicTimer));
    forall nb ensures Count([t], ActiveRouteJob(nb)) == 0 {
      CountOne(t, ActiveRouteJob(nb));
    }
    hide Count;
  }

  /**
   A running daemon that hears from a neighbour watches it anew if it watches it already, and begins to
   with its hello: the neighbour times out four seconds later if nothing more is heard of it.
   */
  lemma {:induction false} HelloIsWatched(n: Node, from: Addr, ttl: int, m: Rrep, env: Env)
    requires !n.reboot && from != n.ip && WatchedOnce(n.tq.list) && m.src == 0 && m.dest == from
    ensures var q' := Receive(n, from, ttl, RrepMsg(m), env).tq.list;
            Count(q', ActiveRouteJob(from)) == 1 && Timer(env.now + 4000, Job(ActiveRouteTimer, from)) in q'
  {
    hide NeighborUpdate, Unicast, Count, WatchedOnce;
    NeighborWatch(n, from, 0, m.destSeq, env.now + NEIGHBOR_LIFE, env.now);
    RecvRREPShape(n, from, m, env.now);
  }
}
