/**
 What every step keeps true of the routing table, the local repair list, the kernel's forwarding
 table and the replies to the Local Agent.
 */
module Routes {
  import opened Base
  import opened Params
  import opened Timers
  import opened Node
  import opened Steps
  import opened Effects

  /** The state machine of an entry. */
  ghost predicate TableOk(t: Table, repair: set<Addr>) {
    forall k :: k in t ==>
      && (t[k].flag.Active? ==> t[k].hop != INFINITY)
      && (t[k].flag.Invalid? ==> t[k].hop == INFINITY)
      && (t[k].flag.Broken? ==> k in repair)
  }

  /** No kernel routes during reboot; afterwards exactly those of the active entries. */
  ghost predicate KernelOk(n: Node) {
    if n.reboot then n.fib == map[] else n.fib.Keys == ActiveKeys(n.table)
  }

  /** IP_FOUND is only ever sent when the kernel has the route. */
  ghost predicate RepliesOk(trace: seq<Trace>) {
    forall i :: 0 <= i < |trace| && trace[i].Reply? && trace[i].found ==> trace[i].routed
  }

  ghost predicate RouteInv(n: Node) {
    TableOk(n.table, n.repair) && KernelOk(n) && RepliesOk(n.trace)
  }

  lemma FrameKeeps(n: Node, n': Node)
    requires RouteInv(n) && SameFlags(n.table, n'.table)
    requires n'.fib == n.fib && n'.repair == n.repair && n'.reboot == n.reboot && n'.trace == n.trace
    ensures RouteInv(n')
  {
  }

  lemma AppendReplies(trace: seq<Trace>, e: Trace)
    requires RepliesOk(trace) && (e.Reply? && e.found ==> e.routed)
    ensures RepliesOk(trace + [e])
  {
  }

  lemma NeighborUpdateKeeps(n: Node, nb: Addr, src: Addr, seqNum: u32, life: int, now: int)
    requires RouteInv(n) && !n.reboot
    ensures RouteInv(NeighborUpdate(n, nb, src, seqNum, life, now))
  {
    hide First, Insert, RemoveArmed, RemoveQuiet, SetTimer;
    var n' := NeighborUpdate(n, nb, src, seqNum, life, now);
    assert ActiveKeys(n'.table) == ActiveKeys(n.table) + {nb};
    AppendReplies(n.trace, Reply(nb, true, true));
  }

  lemma RouteUpdateKeeps(n: Node, dst: Addr, seqNum: u32, hop: int, nhop: Addr, life: int, keep: bool, now: int)
    requires RouteInv(n) && !n.reboot && (Accepts(n.table, dst, seqNum, hop) ==> U8(hop) != INFINITY)
    ensures RouteInv(RouteUpdate(n, dst, seqNum, hop, nhop, life, keep, now))
  {
    hide RouteUpdate;
    var n' := RouteUpdate(n, dst, seqNum, hop, nhop, life, keep, now);
    RouteUpdateParts(n, dst, seqNum, hop, nhop, life, keep, now);
    assert ActiveKeys(n'.table) == ActiveKeys(n.table) + {dst};
    AppendReplies(n.trace, Reply(dst, true, true));
  }

  lemma RouteUpdateParts(n: Node, dst: Addr, seqNum: u32, hop: int, nhop: Addr, life: int, keep: bool, now: int)
    requires RouteInv(n) && !n.reboot
    ensures var n' := RouteUpdate(n, dst, seqNum, hop, nhop, life, keep, now);
            && n'.table == RouteTable(n.table, dst, seqNum, hop, nhop, life, keep)
            && n'.fib.Keys == n.fib.Keys + {dst} && n'.reboot == n.reboot
            && (n'.repair == n.repair || n'.repair == n.repair - {dst})
            && n'.trace == n.trace + [Reply(dst, true, true)]
  {
    hide First, Insert, RemoveArmed;
  }

  lemma UnicastKeeps(n: Node, toward: Addr, m: Rrep, now: int)
    requires RouteInv(n)
    ensures RouteInv(Unicast(n, toward, m, now))
  {
    hide RouteInv, Unicast;
    UnicastEffect(n, toward, m, now);
    SameCoresFlags(n.table, Unicast(n, toward, m, now).table);
    FrameKeeps(n, Unicast(n, toward, m, now));
  }

  lemma SameCoresFlags(t: Table, t': Table)
    requires SameCores(t, t')
    ensures SameFlags(t, t')
  {
  }

  lemma GenerateRERRKeeps(n: Node, dst: Addr, nFlag: bool, brd: bool)
    requires RouteInv(n)
    ensures RouteInv(GenerateRERR(n, dst, nFlag, brd))
  {
    hide RouteInv;
    FrameKeeps(n, GenerateRERR(n, dst, nFlag, brd));
  }

  lemma {:induction false} UpdateInvalidFlags(t: Table, dests: seq<Unreach>)
    ensures SameFlags(t, UpdateInvalid(t, dests))
    decreases dests
  {
    if dests != [] {
      var u := dests[0];
      var t1 := if u.dest in t && t[u.dest].hop == INFINITY && u.seqNum > t[u.dest].seqNum
                then t[u.dest := t[u.dest].(seqNum := u.seqNum)] else t;
      UpdateInvalidFlags(t1, dests[1..]);
    }
  }

  lemma InvalidateOneKeeps(n: Node, u: Unreach, now: int)
    requires RouteInv(n) && u.dest in n.table
    ensures RouteInv(InvalidateOne(n, u, now))
  {
    var n' := InvalidateOne(n, u, now);
    assert ActiveKeys(n'.table) == ActiveKeys(n.table) - {u.dest};
    assert n.reboot ==> n'.fib == map[];
  }

  lemma {:induction false} UpdateValidKeeps(n: Node, dests: seq<Unreach>, prevHop: Addr, now: int)
    requires RouteInv(n)
    ensures RouteInv(UpdateValid(n, dests, prevHop, now))
    decreases dests
  {
    hide RouteInv, InvalidateOne;
    if dests != [] {
      if Hit(n.table, dests[0].dest, prevHop) {
        InvalidateOneKeeps(n, dests[0], now);
        UpdateValidKeeps(InvalidateOne(n, dests[0], now), dests[1..], prevHop, now);
      } else {
        UpdateValidKeeps(n, dests[1..], prevHop, now);
      }
    }
  }

  // ---- received messages ----

  /** The one hop count that would make an active entry look expired: the source never checks for it. */
  ghost predicate HopsOk(msg: Msg) {
    match msg
    case RreqMsg(m) => U8(m.hop + 1) != INFINITY
    case RrepMsg(m) => U8(m.hop + 1) != INFINITY
    case RerrMsg(_) => true
  }

  /** The route to dst offered by from is not taken, or not stored with INFINITY hops. */
  ghost predicate Finite(t: Table, from: Addr, dst: Addr, seqNum: u32, hop: int) {
    dst != from && Accepts(t, dst, seqNum, hop) ==> U8(hop) != INFINITY
  }

  ghost predicate FiniteRreq(n: Node, from: Addr, m: Rreq) {
    || (!n.reboot && (m.src == n.ip || (m.src, m.id) in n.fw))
    || Finite(n.table, from, m.src, m.srcSeq, m.hop + 1)
  }

  /** The sender's own entry, refreshed first, does not matter to offers about other nodes. */
  lemma FiniteAfter(t: Table, from: Addr, s: u32, life: int, dst: Addr, seqNum: u32, hop: int)
    ensures Finite(NeighborTable(t, from, s, life), from, dst, seqNum, hop) <==> Finite(t, from, dst, seqNum, hop)
  {
  }

  lemma RecvRREQKeeps(n: Node, from: Addr, m: Rreq, now: int)
    requires RouteInv(n) && !n.reboot && FiniteRreq(n, from, m)
    ensures var n' := RecvRREQ(n, from, m, now).0; RouteInv(n') && !n'.reboot
  {
    hide RouteInv, NeighborUpdate, RouteUpdate, RecvRREQ;
    RecvRREQShape(n, from, m, now);
    var s := if m.src == from then m.srcSeq else 0;
    NeighborUpdateKeeps(n, from, m.src, s, now + NEIGHBOR_LIFE, now);
    NeighborUpdateEffect(n, from, m.src, s, now + NEIGHBOR_LIFE, now);
    var n1 := NeighborUpdate(n, from, m.src, s, now + NEIGHBOR_LIFE, now);
    var n2 := n1.(fw := n1.fw[(m.src, m.id) := now + PATH_TRAVERSAL_TIME],
                  trace := n1.trace + [Handled(m.src, m.id, now)]);
    HandledKeeps(n1, n2, Handled(m.src, m.id, now));
    FiniteAfter(n.table, from, s, now + NEIGHBOR_LIFE, m.src, m.srcSeq, m.hop + 1);
    if m.src != n.ip && (m.src, m.id) !in n.fw && m.src != from {
      RouteUpdateKeeps(n2, m.src, m.srcSeq, m.hop + 1, from, ReverseNew(n2.table, m, now), true, now);
    } else if m.src == n.ip {
      OwnRreqIgnored(n, from, m, now);
    }
    RouteUpdateEffect(n2, m.src, m.srcSeq, m.hop + 1, from, ReverseNew(n2.table, m, now), true, now);
    var n' := RecvRREQ(n, from, m, now).0;
    var n3 := if m.src != from then ReverseRouteUpdate(n2, from, m, now) else n2;
    if RouteInv(n3) {
      FrameKeeps(n3, n3.(localSeq := n'.localSeq));
    }
  }

  /** Trace entries that are not replies do not matter here. */
  lemma HandledKeeps(n: Node, n': Node, e: Trace)
    requires RouteInv(n) && !e.Reply? && n'.trace == n.trace + [e]
    requires n'.table == n.table && n'.fib == n.fib && n'.repair == n.repair && n'.reboot == n.reboot
    ensures RouteInv(n')
  {
  }

  lemma CreateRREPKeeps(n: Node, from: Addr, m: Rreq, env: Env)
    requires RouteInv(n)
    ensures var n' := CreateRREP(n, from, m, env).0; RouteInv(n')
  {
    hide RouteInv, CreateRREP, SameCores;
    CreateRREPCores(n, from, m, env);
    var n' := CreateRREP(n, from, m, env).0;
    SameCoresFlags(n.table, n'.table);
    FrameKeeps(n, n');
  }

  lemma AnswerRREQKeeps(n: Node, from: Addr, m: Rreq, env: Env)
    requires RouteInv(n)
    ensures RouteInv(AnswerRREQ(n, from, m, env))
  {
    hide RouteInv, CreateRREP, Unicast;
    var (n1, rrep) := CreateRREP(n, from, m, env);
    CreateRREPKeeps(n, from, m, env);
    UnicastKeeps(n1, m.src, rrep, env.now);
    var n2 := Unicast(n1, m.src, rrep, env.now);
    UnicastKeeps(n2, m.dest, CreateGRREP(n2, m, env), env.now);
  }

  lemma RebootTablesKeep(n: Node, nb: Addr, s: u32, life: int, dst: Addr, seqNum: u32, hop: int, life': int, keep: bool)
    requires RouteInv(n) && n.reboot
    ensures var t1 := NeighborTable(n.table, nb, s, life);
            && RouteInv(n.(table := t1))
            && (dst != nb && Finite(n.table, nb, dst, seqNum, hop)
                ==> RouteInv(n.(table := RouteTable(t1, dst, seqNum, hop, nb, life', keep))))
  {
  }

  lemma ProcessRREQKeeps(n: Node, from: Addr, ttl: int, m: Rreq, env: Env)
    requires RouteInv(n) && FiniteRreq(n, from, m)
    ensures RouteInv(ProcessRREQ(n, from, ttl, m, env))
  {
    hide RouteInv, NeighborTable, RouteTable, RecvRREQ, AnswerRREQ;
    if n.reboot {
      var s := if m.src == from then m.srcSeq else 0;
      var t1 := NeighborTable(n.table, from, s, env.now + NEIGHBOR_LIFE);
      RebootTablesKeep(n, from, s, env.now + NEIGHBOR_LIFE, m.src, m.srcSeq, m.hop + 1, ReverseNew(t1, m, env.now),
                       true);
      var n' := RebootRREQ(n, from, m, env.now);
      FrameKeeps(n.(table := n'.table), n');
    } else {
      RecvRREQKeeps(n, from, m, env.now);
      var (n1, m1, v) := RecvRREQ(n, from, m, env.now);
      AnswerRREQKeeps(n1, from, m, env);
      FrameKeeps(n1, Send(n1, None, ttl, RreqMsg(m1)));
    }
  }

  lemma RecvRREPKeeps(n: Node, from: Addr, m: Rrep, now: int)
    requires RouteInv(n) && !n.reboot && Finite(n.table, from, m.dest, m.destSeq, m.hop + 1)
    ensures var n' := RecvRREP(n, from, m, now).0; RouteInv(n') && !n'.reboot
  {
    hide RouteInv, NeighborUpdate, RouteUpdate, RecvRREP, SameCores;
    var s := if m.dest == from then m.destSeq else 0;
    NeighborUpdateKeeps(n, from, m.src, s, now + NEIGHBOR_LIFE, now);
    NeighborUpdateEffect(n, from, m.src, s, now + NEIGHBOR_LIFE, now);
    var n1 := NeighborUpdate(n, from, m.src, s, now + NEIGHBOR_LIFE, now);
    FiniteAfter(n.table, from, s, now + NEIGHBOR_LIFE, m.dest, m.destSeq, m.hop + 1);
    if m.dest != from {
      RouteUpdateKeeps(n1, m.dest, m.destSeq, m.hop + 1, from, now + m.life, false, now);
    }
    RouteUpdateEffect(n1, m.dest, m.destSeq, m.hop + 1, from, now + m.life, false, now);
    var n2 := if m.dest != from then ForwardRouteUpdate(n1, from, m, now) else n1;
    RecvRREPShape(n, from, m, now);
    SameCoresFlags(n2.table, RecvRREP(n, from, m, now).0.table);
    FrameKeeps(n2, RecvRREP(n, from, m, now).0);
  }

  lemma ProcessRREPKeeps(n: Node, from: Addr, m: Rrep, env: Env)
    requires RouteInv(n) && Finite(n.table, from, m.dest, m.destSeq, m.hop + 1)
    ensures RouteInv(ProcessRREP(n, from, m, env))
  {
    hide RouteInv, NeighborTable, RouteTable, RecvRREP, Unicast;
    if n.reboot {
      var s := if m.dest == from then m.destSeq else 0;
      RebootTablesKeep(n, from, s, env.now + NEIGHBOR_LIFE, m.dest, m.destSeq, m.hop + 1, env.now + m.life, false);
    } else {
      RecvRREPKeeps(n, from, m, env.now);
      var (n1, m1, send) := RecvRREP(n, from, m, env.now);
      UnicastKeeps(n1, m.src, m1, env.now);
    }
  }

  lemma ForwardRERRKeeps(n: Node, from: Addr, m: Rerr, now: int)
    requires RouteInv(n)
    ensures RouteInv(ForwardRERR(n, from, m, now))
  {
    hide RouteInv, UpdateValid, NewDests, HasPrec;
    UpdateValidKeeps(n, m.dests, from, now);
    var n1 := UpdateValid(n, m.dests, from, now);
    FrameKeeps(n1, ForwardRERR(n, from, m, now));
  }

  lemma LocalRepairRERRKeeps(n: Node, from: Addr, m: Rerr, now: int)
    requires RouteInv(n)
    ensures RouteInv(LocalRepairRERR(n, from, m, now))
  {
    hide RouteInv, GenerateRERR;
    if m.destCnt == 1 && |m.dests| > 0 && FindActive(n.table, m.dests[0].dest, now)
       && n.table[m.dests[0].dest].next == from
    {
      var d := m.dests[0].dest;
      var n1 := n.(table := n.table[d := n.table[d].(seqNum := m.dests[0].seqNum)]);
      FrameKeeps(n, n1);
      GenerateRERRKeeps(n1, d, true, false);
    }
  }

  lemma ProcessRERRKeeps(n: Node, from: Addr, m: Rerr, env: Env)
    requires RouteInv(n)
    ensures RouteInv(ProcessRERR(n, from, m, env))
  {
    hide RouteInv, NeighborTable, NeighborUpdate, UpdateInvalid, UpdateValid, ForwardRERR, LocalRepairRERR;
    var life := env.now + NEIGHBOR_LIFE;
    if n.reboot {
      RebootTablesKeep(n, from, 0, life, from, 0, 1, 0, false);
      var n1 := n.(table := NeighborTable(n.table, from, 0, life));
      UpdateInvalidFlags(n1.table, m.dests);
      var n2 := n1.(table := UpdateInvalid(n1.table, m.dests));
      FrameKeeps(n1, n2);
      UpdateValidKeeps(n2, m.dests, from, env.now);
    } else {
      NeighborUpdateKeeps(n, from, from, 0, life, env.now);
      var n1 := NeighborUpdate(n, from, from, 0, life, env.now);
      UpdateInvalidFlags(n1.table, m.dests);
      var n2 := n1.(table := UpdateInvalid(n1.table, m.dests));
      FrameKeeps(n1, n2);
      LocalRepairRERRKeeps(n2, from, m, env.now);
      ForwardRERRKeeps(n2, from, m, env.now);
    }
  }

  /** An active entry with INFINITY hops, which no later part of the same message repairs. */
  lemma TakenBreaks(n: Node, n': Node, from: Addr, s: u32, life: int,
                    dst: Addr, seqNum: u32, hop: int, life': int, keep: bool)
    requires !Finite(n.table, from, dst, seqNum, hop)
    requires SameCores(RouteTable(NeighborTable(n.table, from, s, life), dst, seqNum, hop, from, life', keep), n'.table)
    ensures !RouteInv(n')
  {
    var t := RouteTable(NeighborTable(n.table, from, s, life), dst, seqNum, hop, from, life', keep);
    assert t[dst].flag.Active? && t[dst].hop == INFINITY;
    assert CoreOf(n'.table[dst]) == CoreOf(t[dst]);
    hide RouteTable, NeighborTable;
  }

  lemma RreqBreaks(n: Node, from: Addr, ttl: int, m: Rreq, env: Env)
    requires !FiniteRreq(n, from, m)
    ensures !RouteInv(ProcessRREQ(n, from, ttl, m, env))
  {
    hide RouteInv, NeighborTable, RouteTable, RecvRREQ, AnswerRREQ, SameCores, Finite;
    var s, life := if m.src == from then m.srcSeq else 0, env.now + NEIGHBOR_LIFE;
    var t1 := NeighborTable(n.table, from, s, life);
    var n' := ProcessRREQ(n, from, ttl, m, env);
    var t2 := RouteTable(t1, m.src, m.srcSeq, m.hop + 1, from, ReverseNew(t1, m, env.now), true);
    assert m.src != from by {
      FiniteSelf(n.table, from, m.srcSeq, m.hop + 1);
    }
    SameCoresSelf(t2);
    if !n.reboot {
      RecvRREQTable(n, from, m, env.now);
      AnswerCores(RecvRREQ(n, from, m, env.now).0, from, m, env);
    }
    TakenBreaks(n, n', from, s, life, m.src, m.srcSeq, m.hop + 1, ReverseNew(t1, m, env.now), true);
  }

  lemma FiniteSelf(t: Table, from: Addr, seqNum: u32, hop: int)
    ensures Finite(t, from, from, seqNum, hop)
  {
  }

  lemma SameCoresSelf(t: Table)
    ensures SameCores(t, t)
  {
  }

  lemma SameCoresTrans(a: Table, b: Table, c: Table)
    requires SameCores(a, b) && SameCores(b, c)
    ensures SameCores(a, c)
  {
    assert forall k :: k in a ==> CoreOf(b[k]) == CoreOf(a[k]) && CoreOf(c[k]) == CoreOf(b[k]);
  }

  lemma RrepBreaks(n: Node, from: Addr, m: Rrep, env: Env)
    requires !Finite(n.table, from, m.dest, m.destSeq, m.hop + 1)
    ensures !RouteInv(ProcessRREP(n, from, m, env))
  {
    hide RouteInv, NeighborTable, RouteTable, RecvRREP, Unicast, SameCores, Finite;
    var s, life := if m.dest == from then m.destSeq else 0, env.now + NEIGHBOR_LIFE;
    var t1 := NeighborTable(n.table, from, s, life);
    var n' := ProcessRREP(n, from, m, env);
    var t2 := RouteTable(t1, m.dest, m.destSeq, m.hop + 1, from, env.now + m.life, false);
    assert m.dest != from by {
      FiniteSelf(n.table, from, m.destSeq, m.hop + 1);
    }
    SameCoresSelf(t2);
    if !n.reboot {
      var (n1, m1, send) := RecvRREP(n, from, m, env.now);
      RecvRREPTable(n, from, m, env.now);
      UnicastEffect(n1, m.src, m1, env.now);
      SameCoresTrans(t2, n1.table, Unicast(n1, m.src, m1, env.now).table);
    }
    TakenBreaks(n, n', from, s, life, m.dest, m.destSeq, m.hop + 1, env.now + m.life, false);
  }

  /** Any received message, during reboot and after: exactly when routes, kernel and repair list stay in agreement. */
  lemma {:induction false} ReceiveKeepsIff(n: Node, from: Addr, ttl: int, msg: Msg, env: Env)
    requires RouteInv(n)
    ensures RouteInv(Receive(n, from, ttl, msg, env))
      <==> from == n.ip ||
           match msg
           case RreqMsg(m) => FiniteRreq(n, from, m)
           case RrepMsg(m) => Finite(n.table, from, m.dest, m.destSeq, m.hop + 1)
           case RerrMsg(_) => true
  {
    hide RouteInv, ProcessRREQ, ProcessRREP, ProcessRERR, Finite, FiniteRreq;
    match msg
    case RreqMsg(m) =>
      if FiniteRreq(n, from, m) {
        ProcessRREQKeeps(n, from, ttl - 1, m, env);
      } else {
        RreqBreaks(n, from, ttl - 1, m, env);
      }
    case RrepMsg(m) =>
      if Finite(n.table, from, m.dest, m.destSeq, m.hop + 1) {
        ProcessRREPKeeps(n, from, m, env);
      } else {
        RrepBreaks(n, from, m, env);
      }
    case RerrMsg(m) => ProcessRERRKeeps(n, from, m, env);
  }

  lemma {:induction false} ReceiveKeeps(n: Node, from: Addr, ttl: int, msg: Msg, env: Env)
    requires RouteInv(n) && HopsOk(msg)
    ensures RouteInv(Receive(n, from, ttl, msg, env))
  {
    hide RouteInv, Receive;
    ReceiveKeepsIff(n, from, ttl, msg, env);
  }

  // ---- requests and timers ----

  lemma ReplyKeeps(n: Node, d: Addr, found: bool)
    requires RouteInv(n) && (found ==> d in n.fib)
    ensures RouteInv(ReplyTo(n, d, found))
  {
  }

  lemma SendRREQKeeps(n: Node, d: Addr, g: bool, now: int)
    requires RouteInv(n)
    ensures RouteInv(SendRREQ(n, d, g, now))
  {
    hide RouteInv, FirstTtl, SetTimer, GetTTL;
    var n' := SendRREQ(n, d, g, now);
    if d != n.ip {
      var n1 := n.(table := n'.table);
      FrameKeeps(n, n1);
      HandledKeeps(n1, n', Originated(d));
    }
  }

  lemma AgentRequestKeeps(n: Node, d: Addr, src: Addr, tcp: bool, env: Env)
    requires RouteInv(n)
    ensures RouteInv(AgentRequest(n, d, src, tcp, env))
  {
    hide SendRREQ, DoLocalRepair, GenerateRERR, ResetRebootTimer, TableOk, RepliesOk;
    var n0 := n.(trace := n.trace + [Request(d, src == n.ip)]);
    HandledKeeps(n, n0, Request(d, src == n.ip));
    assert FindActive(n0.table, d, env.now) && !n0.reboot ==> d in n0.fib;
    hide RouteInv, KernelOk;
    var n1 := n0.(tq := ResetRebootTimer(n0.tq, env.now));
    FrameKeeps(n0, n1);
    ReplyKeeps(n0, d, false);
    ReplyKeeps(n1, d, false);
    GenerateRERRKeeps(ReplyTo(n1, d, false), d, false, true);
    GenerateRERRKeeps(ReplyTo(n0, d, false), d, false, d !in n0.table);
    SendRREQKeeps(n0, d, tcp || env.junkG, env.now);
    DoLocalRepairKeeps(n0, d, tcp, env.now);
    if FindActive(n0.table, d, env.now) && !n0.reboot {
      ReplyKeeps(n0, d, true);
    }
  }

  lemma DoLocalRepairKeeps(n: Node, d: Addr, g: bool, now: int)
    requires RouteInv(n)
    ensures RouteInv(DoLocalRepair(n, d, g, now))
  {
    hide RouteInv, SetTimer;
    FrameKeeps(n, DoLocalRepair(n, d, g, now));
  }

  lemma ResendRREQKeeps(n: Node, d: Addr, now: int)
    requires RouteInv(n)
    ensures RouteInv(ResendRREQ(n, d, now))
  {
    hide RouteInv, FirstPending, NextRing, SetTimer;
    var n' := ResendRREQ(n, d, now);
    var i := FirstPending(n.pending, d);
    if i < |n.pending| {
      if NextRing(n.pending[i]).retries > RREQ_RETRIES {
        var n1 := n.(pending := n'.pending);
        FrameKeeps(n, n1);
        ReplyKeeps(n1, d, false);
      } else {
        HandledKeeps(n, n', Resent(d));
      }
    }
  }

  /** Local repair gives up: safe because the route it was repairing is not active. */
  lemma LRHandlerKeeps(n: Node, d: Addr, now: int)
    requires RouteInv(n) && !IsActive(n.table, d)
    ensures RouteInv(LRHandler(n, d, now))
  {
    hide GenerateRERR;
    var n1 := ReplyTo(n, d, false);
    ReplyKeeps(n, d, false);
    var n2 := if d in n1.table
              then n1.(table := n1.table[d := n1.table[d].(lastHop := n1.table[d].hop, hop := INFINITY,
                                                           life := now + DELETE_PERIOD, flag := Invalid)])
              else n1;
    assert ActiveKeys(n2.table) == ActiveKeys(n1.table);
    assert RouteInv(n2.(repair := n2.repair - {d}));
    hide RouteInv;
    GenerateRERRFrame(n2, d, false, false);
    FrameKeeps(n2.(repair := n2.repair - {d}), LRHandler(n, d, now));
  }

  lemma BreakViaActive(t: Table, nb: Addr, via: Addr, now: int, repair: set<Addr>)
    ensures ActiveKeys(BreakVia(t, nb, via, now)) == ActiveKeys(t) - BrokenVia(t, nb, via)
    ensures TableOk(t, repair) ==> TableOk(BreakVia(t, nb, via, now), repair + BrokenVia(t, nb, via))
  {
  }

  lemma BreakNeighborActive(t: Table, nb: Addr, now: int, repair: set<Addr>)
    ensures var t1 := if nb in t then t[nb := BreakNeighbor(t[nb], now)] else t;
            ActiveKeys(t1) == ActiveKeys(t) - {nb} && (TableOk(t, repair) ==> TableOk(t1, repair + {nb}))
  {
  }

  lemma NeighborTimeoutKeeps(n: Node, nb: Addr, env: Env)
    requires RouteInv(n)
    ensures RouteInv(NeighborTimeout(n, nb, env))
  {
    var t1 := if nb in n.table then n.table[nb := BreakNeighbor(n.table[nb], env.now)] else n.table;
    var via := if nb in n.table then nb else env.wild;
    BreakNeighborActive(n.table, nb, env.now, n.repair);
    BreakViaActive(t1, nb, via, env.now, n.repair + {nb});
    assert nb in n.table && n.table[nb].hop == INFINITY ==> nb !in ActiveKeys(n.table);
    hide TableOk, ActiveKeys, BreakVia, BrokenVia, BreakNeighbor;
  }

  lemma KillKeeps(n: Node, dead: set<Addr>, now: int)
    requires RouteInv(n)
    ensures RouteInv(Kill(n, dead, now))
  {
    var n' := Kill(n, dead, now);
    assert ActiveKeys(n'.table) == ActiveKeys(n.table) - (set j | j in dead && IsActive(n.table, j));
  }

  lemma EraseKeeps(n: Node, k: Addr)
    requires RouteInv(n) && k in n.table && n.table[k].hop == INFINITY
    ensures RouteInv(n.(table := n.table - {k}))
  {
  }

  lemma RefreshOneKeeps(n: Node, k: Addr, env: Env)
    requires RouteInv(n)
    ensures RouteInv(RefreshOne(n, k, env))
  {
    hide IdleTime, RouteInv, Kill, Dead;
    if k in n.table && n.table[k].life <= env.now {
      if n.table[k].hop == INFINITY {
        EraseKeeps(n, k);
      } else if IdleTime(n.table, k, env) < ACTIVE_ROUTE_TIMEOUT {
        FrameKeeps(n, RefreshOne(n, k, env));
      } else {
        KillKeeps(n, Dead(n.table, k), env.now);
      }
    }
  }

  lemma {:induction false} RefreshAllKeeps(n: Node, ks: seq<Addr>, env: Env)
    requires RouteInv(n)
    ensures RouteInv(RefreshAll(n, ks, env))
    decreases ks
  {
    hide RouteInv, RefreshOne;
    if ks != [] {
      RefreshOneKeeps(n, ks[0], env);
      RefreshAllKeeps(RefreshOne(n, ks[0], env), ks[1..], env);
    }
  }

  /** addAllValidRoutes brings the kernel in line with the table when reboot ends. */
  lemma RebootDoneKeeps(n: Node)
    requires RouteInv(n)
    ensures RouteInv(RebootDone(n))
  {
  }

  lemma {:induction false} HandleKeeps(n: Node, j: Job, env: Env)
    requires RouteInv(n) && (j.kind.LrTimer? ==> !IsActive(n.table, j.data))
    ensures RouteInv(Handle(n, j, env))
  {
    hide RouteInv, SendHello, RebootDone, ResendRREQ, LRHandler, NeighborTimeout, RefreshAll, AddTimer;
    match j.kind
    case RebootTimer =>
      RebootDoneKeeps(n);
      SendHelloKeeps(RebootDone(n), env.now);
    case RreqTimer => ResendRREQKeeps(n, j.data, env.now);
    case HelloTimer => SendHelloKeeps(n, env.now);
    case LrTimer => LRHandlerKeeps(n, j.data, env.now);
    case PeriodicTimer =>
      var n1 := n.(tq := AddTimer(n.tq, env.now, PERIODIC_INTERVAL, Job(PeriodicTimer, 0)));
      FrameKeeps(n, n1);
      RefreshAllKeeps(n1, Keys(n1.table.Keys), env);
      FrameKeeps(RefreshEntries(n1, env), Handle(n, j, env));
    case RrepAckTimer =>
    case ActiveRouteTimer => NeighborTimeoutKeeps(n, j.data, env);
  }

  lemma SendHelloKeeps(n: Node, now: int)
    requires RouteInv(n)
    ensures RouteInv(SendHello(n, now))
  {
    hide RouteInv, AddTimer;
    FrameKeeps(n, SendHello(n, now));
  }

  // ---- leaving the active state ----

  /** An active route given up by a silent neighbour or by the refresh pass gets a newer sequence number. */
  lemma TimeoutRaisesSeq(n: Node, nb: Addr, env: Env, k: Addr)
    requires TableOk(n.table, n.repair) && IsActive(n.table, k)
    ensures var t' := NeighborTimeout(n, nb, env).table;
            k in t' && (!t'[k].flag.Active? ==> t'[k].flag.Broken? && t'[k].seqNum == U32(n.table[k].seqNum + 1))
  {
  }

  /** An update that takes effect keeps all this exactly when its hop count is not stored as INFINITY. */
  lemma RouteUpdateKeepsIff(n: Node, dst: Addr, seqNum: u32, hop: int, nhop: Addr, life: int, keep: bool, now: int)
    requires RouteInv(n) && !n.reboot && Accepts(n.table, dst, seqNum, hop)
    ensures RouteInv(RouteUpdate(n, dst, seqNum, hop, nhop, life, keep, now)) <==> U8(hop) != INFINITY
  {
    if U8(hop) != INFINITY {
      RouteUpdateKeeps(n, dst, seqNum, hop, nhop, life, keep, now);
    } else {
      RouteUpdateParts(n, dst, seqNum, hop, nhop, life, keep, now);
      hide RouteUpdate;
    }
  }

  /** What then goes wrong: once expired, the active entry is erased and its kernel route stays behind. */
  lemma StaleKernelRoute(n: Node, k: Addr, env: Env)
    requires KernelOk(n) && !n.reboot && IsActive(n.table, k) && n.table[k].hop == INFINITY
        && n.table[k].life <= env.now
    ensures var n' := RefreshOne(n, k, env);
            k in n'.fib && k !in n'.table && !KernelOk(n')
  {
    hide IdleTime;
  }
}
