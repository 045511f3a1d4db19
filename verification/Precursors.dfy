/** Precursor lists over whole runs, and what they are for: an error reaches those who use the route. */
module Precursors {
  import opened Base
  import opened Params
  import opened Timers
  import opened Node
  import opened Steps
  import opened Effects
  import opened Schedule
  import opened ErrorCascade
  import opened NextHops
  import opened Messages
  import opened Learning
  import R = Runs

  /** No list has changed; entries may be gone. */
  ghost predicate ListsKept(t: Table, t': Table) {
    forall k :: k in t' ==> k in t && t'[k].prec == t[k].prec
  }

  /** The list of k is as it was, or the entry is gone, or new. */
  ghost predicate ListKept(t: Table, t': Table, k: Addr) {
    PrecOf(t', k) == PrecOf(t, k) || k !in t'
  }

  /** At most two precursors were added behind the others, and none that was listed. */
  predicate ListGrew(t: Table, t': Table, k: Addr) {
    && PrecOf(t, k) <= PrecOf(t', k) && |PrecOf(t', k)| <= |PrecOf(t, k)| + 2
    && (Distinct(PrecOf(t, k)) ==> Distinct(PrecOf(t', k)))
  }

  lemma KeptIn(t: Table, t': Table, k: Addr)
    requires ListsKept(t, t')
    ensures ListKept(t, t', k)
  {
  }

  lemma KeptTrans(a: Table, b: Table, c: Table)
    requires ListsKept(a, b) && ListsKept(b, c)
    ensures ListsKept(a, c)
  {
  }

  // ---- received messages ----

  lemma NeighborListKept(t: Table, nb: Addr, seqNum: u32, life: int, k: Addr)
    ensures PrecOf(NeighborTable(t, nb, seqNum, life), k) == PrecOf(t, k)
  {
  }

  lemma RerrLists(n: Node, from: Addr, m: Rerr, env: Env, k: Addr)
    ensures PrecOf(ProcessRERR(n, from, m, env).table, k) == PrecOf(n.table, k)
  {
    hide NeighborUpdate, NeighborTable, UpdateInvalid, UpdateValid, ForwardRERR, LocalRepairRERR, PrecOf, SeqOnly;
    var life := env.now + NEIGHBOR_LIFE;
    NeighborUpdateEffect(n, from, from, 0, life, env.now);
    NeighborListKept(n.table, from, 0, life, k);
    var n1 := if n.reboot then n.(table := NeighborTable(n.table, from, 0, life))
              else NeighborUpdate(n, from, from, 0, life, env.now);
    UpdateInvalidSeqOnly(n1.table, m.dests);
    var n2 := n1.(table := UpdateInvalid(n1.table, m.dests));
    SeqOnlyLists(n1.table, n2.table, k);
    LoopLists(n2, m, from, env.now, k);
    LocalRepairLists(n2, from, m, env.now, k);
  }

  lemma LoopLists(n: Node, m: Rerr, from: Addr, now: int, k: Addr)
    ensures PrecOf(UpdateValid(n, m.dests, from, now).table, k) == PrecOf(n.table, k)
    ensures PrecOf(ForwardRERR(n, from, m, now).table, k) == PrecOf(n.table, k)
  {
    hide UpdateValid, NewDests, HasPrec, HitSet;
    NewDestsExact(n, m.dests, from, now);
  }

  lemma LocalRepairLists(n: Node, from: Addr, m: Rerr, now: int, k: Addr)
    ensures PrecOf(LocalRepairRERR(n, from, m, now).table, k) == PrecOf(n.table, k)
  {
    hide GenerateRERR;
    if m.dests != [] && m.dests[0].dest in n.table {
      var d := m.dests[0].dest;
      GenerateRERRFrame(n.(table := n.table[d := n.table[d].(seqNum := m.dests[0].seqNum)]), d, true, false);
    }
  }

  lemma SeqOnlyLists(t: Table, t': Table, k: Addr)
    requires SeqOnly(t, t')
    ensures PrecOf(t', k) == PrecOf(t, k)
  {
  }

  lemma RebootLists(n: Node, from: Addr, ttl: int, msg: Msg, env: Env, k: Addr)
    requires n.reboot && from != n.ip
    ensures PrecOf(Receive(n, from, ttl, msg, env).table, k) == PrecOf(n.table, k)
  {
    hide NeighborTable, RouteTable, ProcessRERR;
    match msg
    case RreqMsg(m) =>
      var s := if m.src == from then m.srcSeq else 0;
      LearnKeepsPrec(n.table, from, s, env.now + NEIGHBOR_LIFE, m.src, m.srcSeq, m.hop + 1,
                     ReverseNew(NeighborTable(n.table, from, s, env.now + NEIGHBOR_LIFE), m, env.now), true, k);
    case RrepMsg(m) =>
      LearnKeepsPrec(n.table, from, if m.dest == from then m.destSeq else 0, env.now + NEIGHBOR_LIFE,
                     m.dest, m.destSeq, m.hop + 1, env.now + m.life, false, k);
    case RerrMsg(m) => RerrLists(n, from, m, env, k);
  }

  lemma ReceiveLists(n: Node, from: Addr, ttl: int, msg: Msg, env: Env, k: Addr)
    ensures var t, t' := n.table, Receive(n, from, ttl, msg, env).table;
            PrecOf(t', k) == PrecOf(t, k) || (!msg.RerrMsg? && !n.reboot && ListGrew(t, t', k))
  {
    hide Receive, Noted, Distinct, PrecOf, LearntRreq, LearntRrep, FindActive, FindValid, Ignored;
    if from == n.ip {
      assert Receive(n, from, ttl, msg, env) == n by { OwnPacket(n, from, ttl, msg, env); }
    } else if n.reboot {
      RebootLists(n, from, ttl, msg, env, k);
    } else {
      match msg
      case RreqMsg(m) => RreqPrecursors(n, from, ttl, m, env, k);
      case RrepMsg(m) => RrepPrecursors(n, from, ttl, m, env, k);
      case RerrMsg(m) => RerrLists(n, from, m, env, k); RerrReceived(n, from, ttl, m, env);
    }
  }

  lemma OwnPacket(n: Node, from: Addr, ttl: int, msg: Msg, env: Env)
    requires from == n.ip
    ensures Receive(n, from, ttl, msg, env) == n
  {
  }

  lemma RerrReceived(n: Node, from: Addr, ttl: int, m: Rerr, env: Env)
    requires from != n.ip
    ensures Receive(n, from, ttl, RerrMsg(m), env) == ProcessRERR(n, from, m, env)
  {
    hide ProcessRERR;
  }

  // ---- requests and timers ----

  lemma AgentLists(n: Node, d: Addr, src: Addr, tcp: bool, env: Env)
    ensures ListsKept(n.table, AgentRequest(n, d, src, tcp, env).table)
  {
    hide GenerateRERR, SendRREQ, DoLocalRepair, ResetRebootTimer;
    var n0 := n.(trace := n.trace + [Request(d, src == n.ip)]);
    SearchLists(n0, d, tcp || env.junkG, env.now);
    RepairLists(n0, d, tcp, env.now);
    GenerateRERRFrame(ReplyTo(n0, d, false), d, false, d !in n0.table);
    GenerateRERRFrame(ReplyTo(n0.(tq := ResetRebootTimer(n0.tq, env.now)), d, false), d, false, true);
  }

  lemma SearchLists(n: Node, d: Addr, g: bool, now: int)
    ensures ListsKept(n.table, SendRREQ(n, d, g, now).table)
  {
    hide SetTimer;
  }

  lemma RepairLists(n: Node, d: Addr, g: bool, now: int)
    ensures ListsKept(n.table, DoLocalRepair(n, d, g, now).table)
  {
    hide SetTimer;
  }

  lemma ProlongLists(t: Table, k: Addr, life: int)
    requires k in t
    ensures ListsKept(t, Prolong(t, k, life))
  {
  }

  lemma KillLists(n: Node, dead: set<Addr>, now: int)
    ensures ListsKept(n.table, Kill(n, dead, now).table)
  {
  }

  lemma VisitLists(n: Node, k: Addr, env: Env)
    ensures ListsKept(n.table, RefreshOne(n, k, env).table)
  {
    hide IdleTime, Dead, Kill, Prolong;
    if k in n.table {
      ProlongLists(n.table, k, env.now - IdleTime(n.table, k, env) + ACTIVE_ROUTE_TIMEOUT);
      KillLists(n, Dead(n.table, k), env.now);
    }
  }

  lemma {:induction false} PassLists(n: Node, ks: seq<Addr>, env: Env)
    ensures ListsKept(n.table, RefreshAll(n, ks, env).table)
    decreases ks
  {
    hide RefreshOne;
    if ks != [] {
      VisitLists(n, ks[0], env);
      PassLists(RefreshOne(n, ks[0], env), ks[1..], env);
    }
  }

  lemma TimeoutLists(n: Node, nb: Addr, env: Env)
    ensures ListsKept(n.table, NeighborTimeout(n, nb, env).table)
  {
  }

  lemma RepairOverLists(n: Node, d: Addr, now: int)
    ensures ListsKept(n.table, LRHandler(n, d, now).table)
  {
    hide GenerateRERR;
    var n1 := ReplyTo(n, d, false);
    var n2 := if d in n1.table
              then n1.(table := n1.table[d := n1.table[d].(lastHop := n1.table[d].hop, hop := INFINITY,
                                                           life := now + DELETE_PERIOD, flag := Invalid)])
              else n1;
    GenerateRERRFrame(n2, d, false, false);
  }

  lemma PeriodicLists(n: Node, env: Env)
    ensures ListsKept(n.table, PeriodicHandler(n, env).table)
  {
    hide RefreshAll, Keys, AddTimer;
    var n1 := n.(tq := AddTimer(n.tq, env.now, PERIODIC_INTERVAL, Job(PeriodicTimer, 0)));
    PassLists(n1, Keys(n1.table.Keys), env);
  }

  lemma HandlerLists(n: Node, j: Job, env: Env)
    ensures ListsKept(n.table, Handle(n, j, env).table)
  {
    hide SendHello, ResendRREQ, NeighborTimeout, LRHandler, PeriodicHandler;
    ResendTable(n, j.data, env.now);
    HelloTable(n, env.now);
    HelloTable(RebootDone(n), env.now);
    TimeoutLists(n, j.data, env);
    RepairOverLists(n, j.data, env.now);
    PeriodicLists(n, env);
  }

  lemma {:induction false} FiringLists(n: Node, env: Env)
    ensures ListsKept(n.table, ScheduleTimer(n, env).table)
    decreases CountDue(n.tq.list, env.now)
  {
    hide Handle;
    if n.tq.list != [] && n.tq.list[0].timeout <= env.now {
      HandlerLists(n, n.tq.list[0].what, env);
      FiringLists(FireHead(n, env), env);
    }
  }

  /** Nothing but a received RREQ or RREP adds precursors; entries are erased with their lists. */
  lemma {:induction false} OnlyMessagesAdd(n: Node, ev: R.Event, env: Env, k: Addr)
    ensures var t, t' := n.table, R.Step(n, ev, env).table;
            ListKept(t, t', k) || (ev.Recv? && !ev.msg.RerrMsg? && !n.reboot && ListGrew(t, t', k))
  {
    hide Receive, AgentRequest, ScheduleTimer, ListGrew;
    match ev
    case Recv(from, ttl, msg) => ReceiveLists(n, from, ttl, msg, env, k);
    case Ask(d, src, tcp) => AgentLists(n, d, src, tcp, env);
    case Alarm => FiringLists(n.(tq := n.tq.(alarm := None)), env);
  }

  lemma NoneListed()
    ensures Distinct([])
  {
  }

  ghost predicate ListsDistinct(t: Table) {
    forall k {:trigger PrecOf(t, k)} :: Distinct(PrecOf(t, k))
  }

  /** No precursor is ever listed twice. */
  lemma {:induction false} PrecursorsDistinct(n: Node, ms: seq<R.Moment>, n': Node)
    requires ListsDistinct(n.table) && R.AnyRun(n, ms, n')
    ensures ListsDistinct(n'.table)
    decreases ms
  {
    hide R.Step;
    if ms != [] {
      var n1 := R.Step(n, ms[0].ev, ms[0].env);
      hide Distinct;
      forall k ensures Distinct(PrecOf(n1.table, k)) {
        OnlyMessagesAdd(n, ms[0].ev, ms[0].env, k);
        assert Distinct(PrecOf(n.table, k)) && Distinct([]) by { NoneListed(); }
      }
      PrecursorsDistinct(n1, ms[1..], n');
    }
  }

  // ---- errors reach those who use the route ----

  /** Exactly one packet goes out: a broadcast RERR that lists d. */
  ghost predicate OneErrorAbout(outs: seq<Out>, d: Addr) {
    && |outs| == 1 && outs[0].to.None? && outs[0].msg.RerrMsg?
    && !outs[0].msg.rerr.nFlag && d in DestsOf(outs[0].msg.rerr.dests)
  }

  /** A live route with precursors: a RERR from its next hop that lists it is passed on. */
  lemma {:induction false} ErrorGoesOn(n: Node, d: Addr, ttl: int, m: Rerr, env: Env)
    requires !n.reboot && n.outbox == [] && !m.nFlag
    requires IsLive(n.table, d) && PrecOf(n.table, d) != [] && n.table[d].next != n.ip && d in DestsOf(m.dests)
    ensures OneErrorAbout(Receive(n, n.table[d].next, ttl, RerrMsg(m), env).outbox, d)
  {
    var from := n.table[d].next;
    hide ProcessRERR;
    var l := NewRerrExact(n, from, m, env);
    assert d in HitSet(Before(n, from, env.now), DestsOf(m.dests), from);
    var u :| u in l && u.dest == d;
    assert PrecCount(Before(n, from, env.now), u.dest) > 0;
  }

  lemma RrepFrame(n: Node, from: Addr, ttl: int, m: Rrep, env: Env)
    requires !n.reboot
    ensures var n' := Receive(n, from, ttl, RrepMsg(m), env); n'.ip == n.ip && !n'.reboot
  {
    hide RecvRREP, NeighborUpdate, RouteUpdate, Unicast;
    RecvRREPShape(n, from, m, env.now);
    var s := if m.dest == from then m.destSeq else 0;
    NeighborUpdateEffect(n, from, m.src, s, env.now + NEIGHBOR_LIFE, env.now);
    var n1 := NeighborUpdate(n, from, m.src, s, env.now + NEIGHBOR_LIFE, env.now);
    RouteUpdateEffect(n1, m.dest, m.destSeq, m.hop + 1, from, env.now + m.life, false, env.now);
    var (n2, m2, send) := RecvRREP(n, from, m, env.now);
    UnicastEffect(n2, m.src, m2, env.now);
  }

  lemma RecvRreqFrame(n: Node, from: Addr, m: Rreq, now: int)
    ensures var n' := RecvRREQ(n, from, m, now).0; n'.ip == n.ip && n'.reboot == n.reboot
  {
    hide RecvRREQ, NeighborUpdate, RouteUpdate;
    RecvRREQShape(n, from, m, now);
    var s := if m.src == from then m.srcSeq else 0;
    NeighborUpdateEffect(n, from, m.src, s, now + NEIGHBOR_LIFE, now);
    var n1 := NeighborUpdate(n, from, m.src, s, now + NEIGHBOR_LIFE, now);
    var n2 := n1.(fw := n1.fw[(m.src, m.id) := now + PATH_TRAVERSAL_TIME],
                  trace := n1.trace + [Handled(m.src, m.id, now)]);
    RouteUpdateEffect(n2, m.src, m.srcSeq, m.hop + 1, from, ReverseNew(n2.table, m, now), true, now);
  }

  lemma RreqFrame(n: Node, from: Addr, ttl: int, m: Rreq, env: Env)
    requires !n.reboot
    ensures var n' := Receive(n, from, ttl, RreqMsg(m), env); n'.ip == n.ip && !n'.reboot
  {
    hide RecvRREQ, AnswerRREQ;
    RecvRreqFrame(n, from, m, env.now);
    AnswerFrame(RecvRREQ(n, from, m, env.now).0, from, m, env);
  }

  /** A node that has relayed a RREP over usable routes passes on an error about the route it tells of. */
  lemma {:induction false} RelayThenError(
    n: Node, from: Addr, ttl: int, m: Rrep, env: Env, ttl': int, e: Rerr, env': Env)
    requires !n.reboot && from != n.ip && m.src != n.ip && m.src != 0
    requires var t := LearntRrep(n, from, m, env.now);
             && FindActive(t, m.dest, env.now) && FindActive(t, m.src, env.now) && t[m.dest].hop != INFINITY
             && t[m.dest].next != n.ip && !e.nFlag && m.dest in DestsOf(e.dests)
    ensures var t := LearntRrep(n, from, m, env.now);
            var n1 := Receive(n, from, ttl, RrepMsg(m), env).(outbox := []);
            OneErrorAbout(Receive(n1, t[m.dest].next, ttl', RerrMsg(e), env').outbox, m.dest)
  {
    hide Receive, LearntRrep, Distinct;
    var n1 := Receive(n, from, ttl, RrepMsg(m), env).(outbox := []);
    RrepFrame(n, from, ttl, m, env);
    LearnsRrep(n, from, ttl, m, env, m.dest);
    RrepPrecursors(n, from, ttl, m, env, m.dest);
    ErrorGoesOn(n1, m.dest, ttl', e, env');
  }

  /** A node that has answered a RREQ over usable routes passes on an error about either of them. */
  lemma {:induction false} AnswerThenError(
    n: Node, from: Addr, ttl: int, m: Rreq, env: Env, d: Addr, ttl': int, e: Rerr, env': Env)
    requires !n.reboot && from != n.ip && !Ignored(n, m) && m.dest != n.ip && (d == m.dest || d == m.src)
    requires var t := LearntRreq(n, from, m, env.now);
             && FindValid(t, m.dest, m.destSeq) && FindActive(t, m.dest, env.now) && FindActive(t, m.src, env.now)
             && t[d].hop != INFINITY && t[d].next != n.ip && !e.nFlag && d in DestsOf(e.dests)
    ensures var t := LearntRreq(n, from, m, env.now);
            var n1 := Receive(n, from, ttl, RreqMsg(m), env).(outbox := []);
            OneErrorAbout(Receive(n1, t[d].next, ttl', RerrMsg(e), env').outbox, d)
  {
    hide Receive, LearntRreq, Distinct, Ignored;
    var n1 := Receive(n, from, ttl, RreqMsg(m), env).(outbox := []);
    RreqFrame(n, from, ttl, m, env);
    LearnsRreq(n, from, ttl, m, env, d);
    RreqPrecursors(n, from, ttl, m, env, d);
    ErrorGoesOn(n1, d, ttl', e, env');
  }
}
