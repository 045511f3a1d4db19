/** Which parts of the state the larger steps leave alone. */
module Effects {
  import opened Base
  import opened Params
  import opened Node
  import opened Steps

  lemma NeighborUpdateEffect(n: Node, nb: Addr, src: Addr, seqNum: u32, life: int, now: int)
    ensures var n' := NeighborUpdate(n, nb, src, seqNum, life, now);
            && n'.table == NeighborTable(n.table, nb, seqNum, life)
            && n' == n.(table := n'.table, fib := n'.fib, tq := n'.tq, repair := n'.repair, trace := n'.trace)
  {
  }

  lemma RouteUpdateEffect(n: Node, dst: Addr, seqNum: u32, hop: int, nhop: Addr, life: int, keep: bool, now: int)
    ensures var n' := RouteUpdate(n, dst, seqNum, hop, nhop, life, keep, now);
            && n'.table == RouteTable(n.table, dst, seqNum, hop, nhop, life, keep)
            && n' == n.(table := n'.table, fib := n'.fib, tq := n'.tq, repair := n'.repair, trace := n'.trace,
                        outbox := n'.outbox, needHello := n'.needHello)
            && forall out :: out in n'.outbox ==> out in n.outbox || out.msg.RerrMsg?
  {
  }

  lemma GetNextHopEffect(n: Node, d: Addr, now: int)
    ensures var (n', next) := GetNextHop(n, d, now);
            && n' == n.(table := n'.table)
            && SameCores(n.table, n'.table)
            && (forall k :: k in n.table ==> n'.table[k].life >= n.table[k].life)
            && (next != 0 ==> IsActive(n.table, d) && n.table[d].next == next)
  {
  }

  lemma UnicastEffect(n: Node, toward: Addr, m: Rrep, now: int)
    ensures var n' := Unicast(n, toward, m, now);
            && SameCores(n.table, n'.table)
            && (forall k :: k in n.table ==> n'.table[k].life >= n.table[k].life)
            && n' == n.(table := n'.table, outbox := n'.outbox, needHello := n'.needHello)
            && (n'.outbox == n.outbox
                || (IsActive(n.table, toward)
                    && n'.outbox == n.outbox + [Out(Some(n.table[toward].next), -1, RrepMsg(m))]))
  {
    GetNextHopEffect(n, toward, now);
  }

  lemma CreateRREPCores(n: Node, from: Addr, m: Rreq, env: Env)
    ensures var n' := CreateRREP(n, from, m, env).0;
            SameCores(n.table, n'.table) && n' == n.(table := n'.table)
  {
    hide AddPrecTo;
    if m.dest != n.ip && FindActive(n.table, m.dest, env.now) {
      AddPrecCores(n.table, m.dest, from);
      var t1 := AddPrecTo(n.table, m.dest, from);
      if FindActive(t1, m.src, env.now) {
        AddPrecCores(t1, m.src, n.table[m.dest].next);
      }
    }
  }

  lemma AddPrecCores(t: Table, d: Addr, p: Addr)
    requires d in t
    ensures SameCores(t, AddPrecTo(t, d, p))
  {
  }

  lemma AnswerCores(n: Node, from: Addr, m: Rreq, env: Env)
    ensures SameCores(n.table, AnswerRREQ(n, from, m, env).table)
  {
    hide CreateRREP, CreateGRREP, Unicast;
    var (n1, rrep) := CreateRREP(n, from, m, env);
    CreateRREPCores(n, from, m, env);
    UnicastEffect(n1, m.src, rrep, env.now);
    var n2 := Unicast(n1, m.src, rrep, env.now);
    UnicastEffect(n2, m.dest, CreateGRREP(n2, m, env), env.now);
  }

  lemma GenerateRERRFrame(n: Node, dst: Addr, nFlag: bool, brd: bool)
    ensures var n' := GenerateRERR(n, dst, nFlag, brd);
            n' == n.(outbox := n'.outbox, needHello := n'.needHello)
  {
  }

  lemma LRHandlerShape(n: Node, d: Addr, now: int)
    ensures var n' := LRHandler(n, d, now);
            && n'.tq == n.tq && n'.pending == n.pending && n'.trace == n.trace + [Reply(d, false, d in n.fib)]
            && n'.ip == n.ip && n'.reboot == n.reboot && n'.fw == n.fw && n'.fib == n.fib && n'.repair == n.repair - {d}
            && n'.table.Keys == n.table.Keys && (forall k :: k in n.table && k != d ==> n'.table[k] == n.table[k])
            && !IsActive(n'.table, d)
  {
    hide GenerateRERR;
    var n1 := ReplyTo(n, d, false);
    var n2 := if d in n1.table
              then n1.(table := n1.table[d := n1.table[d].(lastHop := n1.table[d].hop, hop := INFINITY,
                                                           life := now + DELETE_PERIOD, flag := Invalid)])
              else n1;
    GenerateRERRFrame(n2, d, false, false);
  }

  /** recvRREQ: nothing, the neighbour update, or that and the reverse route. */
  lemma RecvRREQShape(n: Node, from: Addr, m: Rreq, now: int)
    ensures var n1 := NeighborUpdate(n, from, m.src, if m.src == from then m.srcSeq else 0, now + NEIGHBOR_LIFE, now);
            var n2 := n1.(fw := n1.fw[(m.src, m.id) := now + PATH_TRAVERSAL_TIME],
                          trace := n1.trace + [Handled(m.src, m.id, now)]);
            var n3 := if m.src != from then ReverseRouteUpdate(n2, from, m, now) else n2;
            var n' := RecvRREQ(n, from, m, now).0;
            n' == n || n' == n1 || ((m.src, m.id) !in n1.fw && n' == n3.(localSeq := n'.localSeq))
  {
    hide NeighborUpdate, ReverseRouteUpdate;
  }

  /** recvRREP: the neighbour update, the forward route, and at most a precursor. */
  lemma RecvRREPShape(n: Node, from: Addr, m: Rrep, now: int)
    ensures var n1 := NeighborUpdate(n, from, m.src, if m.dest == from then m.destSeq else 0, now + NEIGHBOR_LIFE, now);
            var n2 := if m.dest != from then ForwardRouteUpdate(n1, from, m, now) else n1;
            var n' := RecvRREP(n, from, m, now).0;
            n' == n2.(table := n'.table) && SameCores(n2.table, n'.table)
  {
    hide NeighborUpdate, ForwardRouteUpdate;
  }

  lemma OwnRreqIgnored(n: Node, from: Addr, m: Rreq, now: int)
    requires m.src == n.ip
    ensures RecvRREQ(n, from, m, now) == (n, m, Ignore)
  {
  }

  /** recvRREQ on the routing table. */
  lemma RecvRREQTable(n: Node, from: Addr, m: Rreq, now: int)
    requires n.ip != m.src
    ensures var (n', _, v) := RecvRREQ(n, from, m, now);
            var t1 := NeighborTable(n.table, from, if m.src == from then m.srcSeq else 0, now + NEIGHBOR_LIFE);
            var t2 := if m.src != from
                      then RouteTable(t1, m.src, m.srcSeq, m.hop + 1, from, ReverseNew(t1, m, now), true) else t1;
            n'.table == if (m.src, m.id) in n.fw then t1 else t2
  {
    hide NeighborUpdate, RouteUpdate, NeighborTable, RouteTable;
    var s := if m.src == from then m.srcSeq else 0;
    var life := now + NEIGHBOR_LIFE;
    NeighborUpdateEffect(n, from, m.src, s, life, now);
    var n1 := NeighborUpdate(n, from, m.src, s, life, now);
    var n2 := n1.(fw := n1.fw[(m.src, m.id) := now + PATH_TRAVERSAL_TIME],
                  trace := n1.trace + [Handled(m.src, m.id, now)]);
    RouteUpdateEffect(n2, m.src, m.srcSeq, m.hop + 1, from, ReverseNew(n2.table, m, now), true, now);
  }

  /** recvRREP on the routing table, up to precursors. */
  lemma RecvRREPTable(n: Node, from: Addr, m: Rrep, now: int)
    ensures var (n', _, _) := RecvRREP(n, from, m, now);
            var t1 := NeighborTable(n.table, from, if m.dest == from then m.destSeq else 0, now + NEIGHBOR_LIFE);
            var t2 := if m.dest != from
                      then RouteTable(t1, m.dest, m.destSeq, m.hop + 1, from, now + m.life, false) else t1;
            SameCores(t2, n'.table)
  {
    hide NeighborUpdate, RouteUpdate, NeighborTable, RouteTable;
    var s := if m.dest == from then m.destSeq else 0;
    var life := now + NEIGHBOR_LIFE;
    NeighborUpdateEffect(n, from, m.src, s, life, now);
    var n1 := NeighborUpdate(n, from, m.src, s, life, now);
    RouteUpdateEffect(n1, m.dest, m.destSeq, m.hop + 1, from, now + m.life, false, now);
  }

  lemma SendFrame(n: Node, to: Option<Addr>, ttl: int, msg: Msg)
    ensures var n' := Send(n, to, ttl, msg);
            n' == n.(outbox := n'.outbox, needHello := n'.needHello)
  {
  }

  lemma KillFrame(n: Node, dead: set<Addr>, now: int)
    ensures var n' := Kill(n, dead, now);
            n' == n.(table := n'.table, fib := n'.fib) && n'.table.Keys == n.table.Keys
  {
  }

  lemma RefreshOneFrame(n: Node, k: Addr, env: Env)
    ensures var n' := RefreshOne(n, k, env);
            n' == n.(table := n'.table, fib := n'.fib) && n'.table.Keys <= n.table.Keys
  {
    hide IdleTime, Dead, Kill;
    if k in n.table {
      KillFrame(n, Dead(n.table, k), env.now);
    }
  }

  lemma {:induction false} RefreshAllFrame(n: Node, ks: seq<Addr>, env: Env)
    ensures var n' := RefreshAll(n, ks, env);
            n' == n.(table := n'.table, fib := n'.fib) && n'.table.Keys <= n.table.Keys
    decreases ks
  {
    hide RefreshOne;
    if ks != [] {
      RefreshOneFrame(n, ks[0], env);
      RefreshAllFrame(RefreshOne(n, ks[0], env), ks[1..], env);
    }
  }

  lemma {:induction false} UpdateValidFrame(n: Node, dests: seq<Unreach>, prevHop: Addr, now: int)
    ensures var n' := UpdateValid(n, dests, prevHop, now);
            n' == n.(table := n'.table, fib := n'.fib, repair := n'.repair) && n'.table.Keys == n.table.Keys
    decreases dests
  {
    if dests != [] {
      UpdateValidFrame(if Hit(n.table, dests[0].dest, prevHop) then InvalidateOne(n, dests[0], now) else n,
                       dests[1..], prevHop, now);
    }
  }
}
