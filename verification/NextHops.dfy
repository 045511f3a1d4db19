/**
 Which events keep next hops sound ("every live route goes through a live neighbour"), exactly, and
 what happens to the next-hop lookup of refreshEntries when one does not.
 */
module NextHops {
  import opened Base
  import opened Params
  import opened Timers
  import opened Node
  import opened Steps
  import opened Effects
  import opened Refresh
  import opened ErrorCascade

  ghost predicate SameHops(t: Table, t': Table) {
    t'.Keys == t.Keys && forall k :: k in t ==> t'[k].hop == t[k].hop && t'[k].next == t[k].next
  }

  lemma SameHopsOk(t: Table, t': Table)
    requires SameHops(t, t')
    ensures NextHopsOk(t') <==> NextHopsOk(t)
  {
  }

  lemma SameCoresHops(t: Table, t': Table)
    requires SameCores(t, t')
    ensures SameHops(t, t')
  {
  }

  // ---- routes learned from a neighbour ----

  lemma NeighborKeepsNextHops(t: Table, nb: Addr, seqNum: u32, life: int)
    requires NextHopsOk(t)
    ensures NextHopsOk(NeighborTable(t, nb, seqNum, life))
  {
  }

  /**
   A reverse or forward update through the neighbour nhop keeps next hops sound exactly when it does
   not claim one hop for another node, and does not move a node that live routes go through.
   */
  lemma RouteKeepsNextHopsIff(t: Table, dst: Addr, seqNum: u32, hop: int, nhop: Addr, life: int, keep: bool)
    requires NextHopsOk(t) && IsNeighbor(t, nhop) && dst != nhop && Accepts(t, dst, seqNum, hop)
    ensures NextHopsOk(RouteTable(t, dst, seqNum, hop, nhop, life, keep))
      <==> U8(hop) != 1 && forall j :: IsLive(t, j) && j != dst ==> t[j].next != dst
  {
    var t' := RouteTable(t, dst, seqNum, hop, nhop, life, keep);
    assert forall j :: j != dst ==> (IsLive(t', j) <==> IsLive(t, j)) && (j in t ==> t'[j] == t[j]);
    if NextHopsOk(t') {
      assert U8(hop) == 1 ==> IsLive(t', dst);
      forall j | IsLive(t, j) && j != dst ensures t[j].next != dst {
        assert IsLive(t', j);
        assert IsNeighbor(t', t'[j].next);
      }
    } else {
      var j :| IsLive(t', j) && !(IsNeighbor(t', t'[j].next) && (t'[j].hop == 1 ==> t'[j].next == j));
      assert j != dst ==> IsNeighbor(t, t[j].next);
    }
  }

  /**
   A route to dst offered by the neighbour from would not claim one hop for another node, nor move a
   node that live routes go through, or it would not be taken.
   */
  ghost predicate Fits(t: Table, from: Addr, dst: Addr, seqNum: u32, hop: int) {
    Accepts(t, dst, seqNum, hop) ==>
      U8(hop) != 1 && forall j :: IsLive(t, j) && j != dst && j != from ==> t[j].next != dst
  }

  /** What every RREQ and RREP does first to its sender, and then to the node it is about. */
  lemma LearnKeepsNextHopsIff(
    t: Table, from: Addr, s: u32, life: int, dst: Addr, seqNum: u32, hop: int, life': int, keep: bool)
    requires NextHopsOk(t)
    ensures var t1 := NeighborTable(t, from, s, life);
            && NextHopsOk(t1)
            && (dst != from ==> (NextHopsOk(RouteTable(t1, dst, seqNum, hop, from, life', keep))
                                 <==> Fits(t, from, dst, seqNum, hop)))
  {
    var t1 := NeighborTable(t, from, s, life);
    NeighborKeepsNextHops(t, from, s, life);
    if dst != from {
      assert forall j :: j != from ==> (IsLive(t1, j) <==> IsLive(t, j)) && (j in t ==> t1[j] == t[j]);
      assert IsNeighbor(t1, from);
      if Accepts(t1, dst, seqNum, hop) {
        RouteKeepsNextHopsIff(t1, dst, seqNum, hop, from, life', keep);
      }
      hide NextHopsOk;
    }
  }

  lemma RreqKeepsNextHopsIff(n: Node, from: Addr, ttl: int, m: Rreq, env: Env)
    requires NextHopsOk(n.table)
    ensures NextHopsOk(ProcessRREQ(n, from, ttl, m, env).table)
      <==> || (!n.reboot && (m.src == n.ip || (m.src, m.id) in n.fw))
           || m.src == from || Fits(n.table, from, m.src, m.srcSeq, m.hop + 1)
  {
    hide RecvRREQ, AnswerRREQ, NeighborTable, RouteTable, NextHopsOk, Fits;
    var s := if m.src == from then m.srcSeq else 0;
    var life := env.now + NEIGHBOR_LIFE;
    var t1 := NeighborTable(n.table, from, s, life);
    LearnKeepsNextHopsIff(n.table, from, s, life, m.src, m.srcSeq, m.hop + 1, ReverseNew(t1, m, env.now), true);
    if !n.reboot {
      var (n1, m1, v) := RecvRREQ(n, from, m, env.now);
      if m.src != n.ip {
        RecvRREQTable(n, from, m, env.now);
      } else {
        OwnRreqIgnored(n, from, m, env.now);
      }
      AnswerCores(n1, from, m, env);
      SameCoresHops(n1.table, AnswerRREQ(n1, from, m, env).table);
      SameHopsOk(n1.table, AnswerRREQ(n1, from, m, env).table);
    }
  }

  lemma RrepKeepsNextHopsIff(n: Node, from: Addr, m: Rrep, env: Env)
    requires NextHopsOk(n.table)
    ensures NextHopsOk(ProcessRREP(n, from, m, env).table)
      <==> m.dest == from || Fits(n.table, from, m.dest, m.destSeq, m.hop + 1)
  {
    hide RecvRREP, Unicast, NeighborTable, RouteTable, NextHopsOk, Fits, SameCores;
    var s := if m.dest == from then m.destSeq else 0;
    var life := env.now + NEIGHBOR_LIFE;
    var t1 := NeighborTable(n.table, from, s, life);
    var t2 := if m.dest != from then RouteTable(t1, m.dest, m.destSeq, m.hop + 1, from, env.now + m.life, false)
        else t1;
    LearnKeepsNextHopsIff(n.table, from, s, life, m.dest, m.destSeq, m.hop + 1, env.now + m.life, false);
    if !n.reboot {
      var (n1, m1, send) := RecvRREP(n, from, m, env.now);
      RecvRREPTable(n, from, m, env.now);
      SameCoresHops(t2, n1.table);
      SameHopsOk(t2, n1.table);
      UnicastEffect(n1, m.src, m1, env.now);
      SameCoresHops(n1.table, Unicast(n1, m.src, m1, env.now).table);
      SameHopsOk(n1.table, Unicast(n1, m.src, m1, env.now).table);
    }
  }

  // ---- routes lost to a RERR ----

  /** A RERR that lists its sender lists every other live destination routed through it as well. */
  ghost predicate ListsAllThrough(t: Table, from: Addr, dests: set<Addr>) {
    from in dests ==> forall j :: IsLive(t, j) && t[j].next == from && j != from ==> j in dests
  }

  lemma UpdateValidKeepsNextHopsIff(n: Node, dests: seq<Unreach>, prevHop: Addr, now: int)
    requires NextHopsOk(n.table)
    ensures NextHopsOk(UpdateValid(n, dests, prevHop, now).table)
      <==> (IsNeighbor(n.table, prevHop) ==> ListsAllThrough(n.table, prevHop, DestsOf(dests)))
  {
    var t, t', hits := n.table, UpdateValid(n, dests, prevHop, now).table, HitSet(n.table, DestsOf(dests), prevHop);
    NewDestsExact(n, dests, prevHop, now);
    hide UpdateValid, NewDests, DestsOf;
    assert forall k :: IsLive(t', k) <==> IsLive(t, k) && k !in hits;
    assert forall k :: k in t && k !in hits ==> t'[k] == t[k];
    LostNextHopsIff(t, t', hits, DestsOf(dests), prevHop);
  }

  lemma LostNextHopsIff(t: Table, t': Table, hits: set<Addr>, dests: set<Addr>, prevHop: Addr)
    requires NextHopsOk(t) && t'.Keys == t.Keys && hits == HitSet(t, dests, prevHop)
    requires forall k :: IsLive(t', k) <==> IsLive(t, k) && k !in hits
    requires forall k :: k in t && k !in hits ==> t'[k] == t[k]
    ensures NextHopsOk(t') <==> (IsNeighbor(t, prevHop) ==> ListsAllThrough(t, prevHop, dests))
  {
    if NextHopsOk(t') && IsNeighbor(t, prevHop) && prevHop in dests {
      assert prevHop in hits && !IsNeighbor(t', prevHop);
      assert forall j :: IsLive(t', j) ==> t'[j].next != prevHop;
    }
    if IsNeighbor(t, prevHop) ==> ListsAllThrough(t, prevHop, dests) {
      forall j | IsLive(t', j) ensures IsNeighbor(t', t'[j].next) && (t'[j].hop == 1 ==> t'[j].next == j) {
        var m := t[j].next;
        assert IsLive(t, j) && IsNeighbor(t, m);
        assert m in hits ==> m == prevHop && j in hits;
      }
    }
  }

  /** A RERR keeps next hops sound exactly if it does not cut off its own sender and leave routes through it. */
  lemma RerrKeepsNextHopsIff(n: Node, from: Addr, m: Rerr, env: Env)
    requires NextHopsOk(n.table)
    ensures NextHopsOk(ProcessRERR(n, from, m, env).table)
      <==> (!n.reboot && m.nFlag) || ListsAllThrough(n.table, from, DestsOf(m.dests))
  {
    hide NeighborUpdate, NeighborTable, UpdateInvalid, UpdateValid, LocalRepairRERR, ForwardRERR, NextHopsOk;
    var life := env.now + NEIGHBOR_LIFE;
    var t1 := NeighborTable(n.table, from, 0, life);
    var t2 := UpdateInvalid(t1, m.dests);
    NeighborKeepsNextHops(n.table, from, 0, life);
    UpdateInvalidSeqOnly(t1, m.dests);
    SeqOnlyThrough(n.table, t1, t2, from, life, DestsOf(m.dests));
    SameHopsOk(t1, t2);
    NeighborUpdateEffect(n, from, from, 0, life, env.now);
    var n2 := (if n.reboot then n else NeighborUpdate(n, from, from, 0, life, env.now)).(table := t2);
    UpdateValidKeepsNextHopsIff(n2, m.dests, from, env.now);
    ForwardShape(n2, from, m, env.now);
    LocalRepairHops(n2, from, m, env.now);
    SameHopsOk(t2, LocalRepairRERR(n2, from, m, env.now).table);
    hide SameHops, ListsAllThrough;
  }

  lemma SeqOnlyThrough(t: Table, t1: Table, t2: Table, from: Addr, life: int, dests: set<Addr>)
    requires t1 == NeighborTable(t, from, 0, life) && SeqOnly(t1, t2)
    ensures SameHops(t1, t2) && IsNeighbor(t2, from)
        && (ListsAllThrough(t2, from, dests) <==> ListsAllThrough(t, from, dests))
  {
  }

  lemma LocalRepairHops(n: Node, from: Addr, m: Rerr, now: int)
    ensures SameHops(n.table, LocalRepairRERR(n, from, m, now).table)
  {
    hide GenerateRERR;
    if |m.dests| > 0 && m.dests[0].dest in n.table {
      var d := m.dests[0].dest;
      GenerateRERRFrame(n.(table := n.table[d := n.table[d].(seqNum := m.dests[0].seqNum)]), d, true, false);
    }
  }

  /** Any received message: exactly when next hops stay sound. */
  lemma {:induction false} ReceiveKeepsNextHopsIff(n: Node, from: Addr, ttl: int, msg: Msg, env: Env)
    requires NextHopsOk(n.table)
    ensures NextHopsOk(Receive(n, from, ttl, msg, env).table)
      <==> from == n.ip ||
           match msg
           case RreqMsg(m) => || (!n.reboot && (m.src == n.ip || (m.src, m.id) in n.fw))
                              || m.src == from || Fits(n.table, from, m.src, m.srcSeq, m.hop + 1)
           case RrepMsg(m) => m.dest == from || Fits(n.table, from, m.dest, m.destSeq, m.hop + 1)
           case RerrMsg(m) => (!n.reboot && m.nFlag) || ListsAllThrough(n.table, from, DestsOf(m.dests))
  {
    hide ProcessRREQ, ProcessRREP, ProcessRERR, NextHopsOk, Fits, ListsAllThrough;
    match msg
    case RreqMsg(m) => RreqKeepsNextHopsIff(n, from, ttl - 1, m, env);
    case RrepMsg(m) => RrepKeepsNextHopsIff(n, from, m, env);
    case RerrMsg(m) => RerrKeepsNextHopsIff(n, from, m, env);
  }

  // ---- timer handlers ----

  /** Local repair gives up: exactly when no other live route goes through the destination. */
  lemma LRHandlerKeepsNextHopsIff(n: Node, d: Addr, now: int)
    requires NextHopsOk(n.table)
    ensures NextHopsOk(LRHandler(n, d, now).table)
      <==> forall j :: IsLive(n.table, j) && j != d ==> n.table[j].next != d
  {
    var t, t' := n.table, LRHandler(n, d, now).table;
    LRHandlerTable(n, d, now);
    hide LRHandler;
    if NextHopsOk(t') {
      forall j | IsLive(t, j) && j != d ensures t[j].next != d {
        assert IsNeighbor(t, t[j].next);
        assert IsLive(t', j) && IsNeighbor(t', t'[j].next);
      }
    }
  }

  lemma LRHandlerTable(n: Node, d: Addr, now: int)
    ensures LRHandler(n, d, now).table
         == if d in n.table then n.table[d := n.table[d].(lastHop := n.table[d].hop, hop := INFINITY,
                                                          life := now + DELETE_PERIOD, flag := Invalid)]
            else n.table
  {
    hide GenerateRERR;
    var n1 := ReplyTo(n, d, false);
    var n2 := if d in n1.table
              then n1.(table := n1.table[d := n1.table[d].(lastHop := n1.table[d].hop, hop := INFINITY,
                                                           life := now + DELETE_PERIOD, flag := Invalid)])
              else n1;
    GenerateRERRFrame(n2, d, false, false);
  }

  /** The entry of nb is not infinite, or the last hop count it gets back fits its next hop. */
  ghost predicate Revivable(t: Table, nb: Addr) {
    nb in t && t[nb].hop == INFINITY && t[nb].lastHop != INFINITY ==>
      if t[nb].next == nb then t[nb].lastHop == 1 else t[nb].lastHop != 1 && IsNeighbor(t, t[nb].next)
  }

  lemma NeighborTimeoutKeepsNextHopsIff(n: Node, nb: Addr, env: Env)
    requires NextHopsOk(n.table)
    ensures NextHopsOk(NeighborTimeout(n, nb, env).table) <==> Revivable(n.table, nb)
  {
    var t, t' := n.table, NeighborTimeout(n, nb, env).table;
    hide NeighborTimeout;
    var t1 := if nb in t then t[nb := BreakNeighbor(t[nb], env.now)] else t;
    TimeoutHops(n, nb, env);
    SameHopsOk(t1, t');
    if nb !in t || t[nb].hop != INFINITY {
      assert SameHops(t, t1);
      SameHopsOk(t, t1);
    } else {
      RevivedNextHopsIff(t, nb, t1[nb]);
      assert t1 == t[nb := t1[nb]];
    }
  }

  lemma TimeoutHops(n: Node, nb: Addr, env: Env)
    ensures var t1 := if nb in n.table then n.table[nb := BreakNeighbor(n.table[nb], env.now)] else n.table;
            SameHops(t1, NeighborTimeout(n, nb, env).table)
  {
    hide BreakNeighbor;
  }

  lemma RevivedNextHopsIff(t: Table, nb: Addr, e: Entry)
    requires NextHopsOk(t) && nb in t && t[nb].hop == INFINITY && e.hop == t[nb].lastHop && e.next == t[nb].next
    ensures NextHopsOk(t[nb := e]) <==> Revivable(t, nb)
  {
    var t1 := t[nb := e];
    assert forall j :: j != nb ==> (IsLive(t1, j) <==> IsLive(t, j)) && (IsNeighbor(t1, j) <==> IsNeighbor(t, j));
    assert forall j :: IsLive(t, j) ==> j != nb && IsNeighbor(t, t[j].next) && t[j].next != nb;
    if NextHopsOk(t1) && e.hop != INFINITY {
      assert IsLive(t1, nb) && IsNeighbor(t1, e.next);
    }
    if Revivable(t, nb) {
      forall j | IsLive(t1, j) ensures IsNeighbor(t1, t1[j].next) && (t1[j].hop == 1 ==> t1[j].next == j) {
        if j != nb {
          assert IsLive(t, j);
        }
      }
    }
  }

  /** Any timer handler: exactly when next hops stay sound. */
  lemma {:induction false} HandleKeepsNextHopsIff(n: Node, j: Job, env: Env)
    requires NextHopsOk(n.table)
    ensures NextHopsOk(Handle(n, j, env).table)
      <==> match j.kind
           case LrTimer => forall k :: IsLive(n.table, k) && k != j.data ==> n.table[k].next != j.data
           case ActiveRouteTimer => Revivable(n.table, j.data)
           case _ => true
  {
    hide NextHopsOk, SendHello, RebootHandler, ResendRREQ, LRHandler, NeighborTimeout, Revivable, RefreshAll;
    match j.kind
    case LrTimer => LRHandlerKeepsNextHopsIff(n, j.data, env.now);
    case ActiveRouteTimer => NeighborTimeoutKeepsNextHopsIff(n, j.data, env);
    case PeriodicTimer =>
      var n1 := n.(tq := AddTimer(n.tq, env.now, PERIODIC_INTERVAL, Job(PeriodicTimer, 0)));
      PassNextHops(n1, Keys(n1.table.Keys), env);
    case RebootTimer => QuietTables(n, j.data, env.now);
    case RreqTimer => QuietTables(n, j.data, env.now);
    case HelloTimer => QuietTables(n, j.data, env.now);
    case RrepAckTimer =>
  }

  lemma QuietTables(n: Node, d: Addr, now: int)
    ensures ResendRREQ(n, d, now).table == n.table && SendHello(n, now).table == n.table
    ensures RebootHandler(n, now).table == n.table
  {
    hide SendHello, ResendRREQ;
    ResendTable(n, d, now);
    HelloTable(n, now);
    HelloTable(RebootDone(n), now);
  }

  lemma ResendTable(n: Node, d: Addr, now: int)
    ensures ResendRREQ(n, d, now).table == n.table
  {
    hide SetTimer, NextRing;
  }

  lemma HelloTable(n: Node, now: int)
    ensures SendHello(n, now).table == n.table
  {
    hide AddTimer;
  }

  /** A request of the Local Agent changes lifetimes at most. */
  lemma {:induction false} AgentRequestKeepsNextHops(n: Node, d: Addr, src: Addr, tcp: bool, env: Env)
    requires NextHopsOk(n.table)
    ensures NextHopsOk(AgentRequest(n, d, src, tcp, env).table)
  {
    hide SendRREQ, DoLocalRepair, GenerateRERR, ReplyTo, ResetRebootTimer, NextHopsOk;
    var n0 := n.(trace := n.trace + [Request(d, src == n.ip)]);
    var n1 := n0.(tq := ResetRebootTimer(n0.tq, env.now));
    DiscoveryHops(n0, d, tcp || env.junkG, env.now);
    DiscoveryHops(n0, d, tcp, env.now);
    RefusalHops(n0, d, d !in n0.table);
    RefusalHops(n1, d, true);
    SameHopsOk(n.table, AgentRequest(n, d, src, tcp, env).table);
  }

  lemma DiscoveryHops(n: Node, d: Addr, g: bool, now: int)
    ensures SameHops(n.table, SendRREQ(n, d, g, now).table) && SameHops(n.table, DoLocalRepair(n, d, g, now).table)
  {
    hide SetTimer;
  }

  lemma RefusalHops(n: Node, d: Addr, brd: bool)
    ensures forall found :: ReplyTo(n, d, found).table == n.table
    ensures GenerateRERR(ReplyTo(n, d, false), d, false, brd).table == n.table
  {
  }

  // ---- the lookup of refreshEntries ----

  /** The i-th visit of a pass over ks looks up the next hop of a used route and finds no entry. */
  ghost predicate NullLookup(n: Node, ks: seq<Addr>, i: nat, env: Env) {
    i < |ks| &&
    var t := RefreshAll(n, ks[..i], env).table;
    ks[i] in t && t[ks[i]].life <= env.now && t[ks[i]].hop != INFINITY
    && IdleTime(t, ks[i], env) < ACTIVE_ROUTE_TIMEOUT && t[ks[i]].next !in t
  }

  /** A live entry whose next hop has no entry, or one that is not live and is visited before it. */
  ghost predicate CanMiss(t: Table, k: Addr) {
    IsLive(t, k) && (t[k].next !in t || (t[k].next < k && !IsLive(t, t[k].next)))
  }

  lemma {:induction false} PassKeepsOthers(n: Node, ks: seq<Addr>, env: Env, j: Addr)
    requires j in n.table && j !in ks
    ensures j in RefreshAll(n, ks, env).table
    decreases ks
  {
    hide RefreshOne;
    if ks != [] {
      VisitKeepsOthers(n, ks[0], env, j);
      PassKeepsOthers(RefreshOne(n, ks[0], env), ks[1..], env, j);
    }
  }

  lemma VisitKeepsOthers(n: Node, k: Addr, env: Env, j: Addr)
    requires j in n.table && j != k
    ensures j in RefreshOne(n, k, env).table
  {
    hide IdleTime, Dead, Kill;
    if k in n.table {
      KillFrame(n, Dead(n.table, k), env.now);
    }
  }

  lemma MissedCanMiss(n: Node, i: nat, env: Env)
    requires NullLookup(n, Keys(n.table.Keys), i, env)
    ensures CanMiss(n.table, Keys(n.table.Keys)[i])
  {
    hide RefreshAll, IdleTime, Keys;
    var ks := Keys(n.table.Keys);
    var k, t := ks[i], RefreshAll(n, ks[..i], env).table;
    assert k in ks;
    PassFate(n.table, n, ks[..i], env);
    assert Fate(n.table, t, env.now, k) && CoreOf(t[k]) == CoreOf(n.table[k]);
    var m := n.table[k].next;
    if m in n.table {
      assert Fate(n.table, t, env.now, m);
      if m !in ks[..i] {
        PassKeepsOthers(n, ks[..i], env, m);
      }
    }
  }

  /** No packets were seen lately but those received from k. */
  function OnlyUsed(k: Addr): (Addr, bool) -> int {
    (x: Addr, received: bool) => if x == k && received then 0 else -1
  }

  /** If only k is in use, any other visit leaves its entry alone, and erases an expired, infinite next hop. */
  lemma VisitBefore(n: Node, k: Addr, j: Addr, env: Env)
    requires env.idle == OnlyUsed(k) && j != k && IsLive(n.table, k) && !IsLive(n.table, n.table[k].next)
    ensures var t, t', m := n.table, RefreshOne(n, j, env).table, n.table[k].next;
            && k in t' && t'[k] == t[k]
            && (m in t' ==> m in t && t'[m] == t[m])
            && (j == m && m in t && t[m].life <= env.now ==> m !in t')
  {
    hide IdleTime, Invalidate;
    if j in n.table {
      LongIdleOther(n.table, k, j, env);
    }
  }

  lemma LongIdleOther(t: Table, k: Addr, j: Addr, env: Env)
    requires env.idle == OnlyUsed(k) && j != k && j in t
    ensures IdleTime(t, j, env) == 2 * ACTIVE_ROUTE_TIMEOUT
  {
    hide Keys, LeastIdle;
    NobodyIdle(t, j, Keys(t.Keys), 2 * ACTIVE_ROUTE_TIMEOUT, env);
  }

  lemma UsedIdle(t: Table, k: Addr, env: Env)
    requires env.idle == OnlyUsed(k) && k in t
    ensures IdleTime(t, k, env) == 0
  {
    hide Keys, LeastIdle;
    NobodyIdle(t, k, Keys(t.Keys), 0, env);
  }

  lemma {:induction false} PassBefore(n: Node, k: Addr, ks: seq<Addr>, env: Env)
    requires env.idle == OnlyUsed(k) && k !in ks && IsLive(n.table, k)
    requires var m := n.table[k].next;
             !IsLive(n.table, m) && (m in n.table ==> m in ks && n.table[m].life <= env.now)
    ensures var t, t' := n.table, RefreshAll(n, ks, env).table; k in t' && t'[k] == t[k] && t[k].next !in t'
    decreases ks
  {
    hide RefreshOne;
    if ks != [] {
      VisitBefore(n, k, ks[0], env);
      PassBefore(RefreshOne(n, ks[0], env), k, ks[1..], env);
    }
  }

  /** A pass that comes late enough, with only k in use, misses. */
  lemma MissWitness(n: Node, k: Addr) returns (i: nat, env: Env)
    requires CanMiss(n.table, k)
    ensures NullLookup(n, Keys(n.table.Keys), i, env)
  {
    hide RefreshAll, IdleTime, Keys;
    var ks, m := Keys(n.table.Keys), n.table[k].next;
    assert k in ks;
    i :| 0 <= i < |ks| && ks[i] == k;
    var now := Max(n.table[k].life, if m in n.table then n.table[m].life else 0);
    env := Env(now, OnlyUsed(k), Rrep(0, 0, 0, 0, 0), false, 0);
    if m in n.table {
      assert m in ks;
      var a :| 0 <= a < |ks| && ks[a] == m;
      assert a < i && ks[..i][a] == m;
    }
    PassBefore(n, k, ks[..i], env);
    UsedIdle(RefreshAll(n, ks[..i], env).table, k, env);
  }

  /**
   A pass over this table can meet a missing next hop, at some time and with some idle times, if and
   only if some live entry's next hop has no entry, or is not live and visited earlier.
   */
  lemma {:induction false} LookupCanMissIff(n: Node)
    ensures (exists i: nat, env: Env :: NullLookup(n, Keys(n.table.Keys), i, env))
            <==> exists k: Addr :: CanMiss(n.table, k)
  {
    hide NullLookup, CanMiss, Keys;
    if i: nat, env: Env :| NullLookup(n, Keys(n.table.Keys), i, env) {
      assert i < |Keys(n.table.Keys)| by {
        NullLookupInRange(n, Keys(n.table.Keys), i, env);
      }
      MissedCanMiss(n, i, env);
    }
    if k: Addr :| CanMiss(n.table, k) {
      var i, env := MissWitness(n, k);
    }
  }

  lemma NullLookupInRange(n: Node, ks: seq<Addr>, i: nat, env: Env)
    requires NullLookup(n, ks, i, env)
    ensures i < |ks|
  {
    hide RefreshAll, IdleTime;
  }

  /** In particular never with sound next hops. */
  lemma {:induction false} LookupFinds(n: Node, i: nat, env: Env)
    requires NextHopsOk(n.table)
    ensures !NullLookup(n, Keys(n.table.Keys), i, env)
  {
    hide NullLookup, Keys;
    if NullLookup(n, Keys(n.table.Keys), i, env) {
      MissedCanMiss(n, i, env);
    }
  }

  lemma {:induction false} SortedUnique(a: seq<Addr>, b: seq<Addr>)
    requires forall i, j :: 0 <= i < j < |a| ==> a[i] < a[j]
    requires forall i, j :: 0 <= i < j < |b| ==> b[i] < b[j]
    requires forall k :: k in a <==> k in b
    ensures a == b
  {
    NoMembers(a);
    NoMembers(b);
    if a != [] {
      assert a[0] in a && b[0] in b && a[0] == b[0];
      assert forall k :: k in a[1..] <==> k in a && k != a[0];
      assert forall k :: k in b[1..] <==> k in b && k != b[0];
      SortedUnique(a[1..], b[1..]);
    }
  }

  lemma NoMembers(a: seq<Addr>)
    ensures a == [] <==> forall k :: k !in a
  {
    assert a != [] ==> a[0] in a;
  }

  lemma KeysAre(ks: seq<Addr>, s: set<Addr>)
    requires forall i, j :: 0 <= i < j < |ks| ==> ks[i] < ks[j]
    requires forall k :: k in ks <==> k in s
    ensures Keys(s) == ks
  {
    hide Keys;
    SortedUnique(Keys(s), ks);
  }

  lemma {:induction false} NobodyIdle(t: Table, k: Addr, ks: seq<Addr>, idle: int, env: Env)
    requires forall j :: env.idle(j, false) == -1
    ensures LeastIdle(t, k, ks, idle, env) == idle
  {
    if ks != [] {
      NobodyIdle(t, k, ks[1..], idle, env);
    }
  }

  /** A RREQ for a destination nobody here knows is passed on, and leaves the table recvRREQ made. */
  lemma ForwardedRreqTable(n: Node, from: Addr, ttl: int, m: Rreq, env: Env)
    requires !n.reboot && from != n.ip && m.src != n.ip && m.dest != n.ip && (m.src, m.id) !in n.fw
    requires m.dest !in n.table && m.dest != from && m.dest != m.src && m.src != from
    ensures var t1 := NeighborTable(n.table, from, 0, env.now + NEIGHBOR_LIFE);
            Receive(n, from, ttl, RreqMsg(m), env).table
            == RouteTable(t1, m.src, m.srcSeq, m.hop + 1, from, ReverseNew(t1, m, env.now), true)
  {
    hide NeighborUpdate, ReverseRouteUpdate;
    var t1 := NeighborTable(n.table, from, 0, env.now + NEIGHBOR_LIFE);
    RecvRREQTable(n, from, m, env.now);
    assert m.dest !in RouteTable(t1, m.src, m.srcSeq, m.hop + 1, from, ReverseNew(t1, m, env.now), true);
    RecvRREQShape(n, from, m, env.now);
    hide NeighborTable, RouteTable, ReverseNew, AnswerRREQ;
  }

  function At(now: int): Env {
    Env(now, OnlyUsed(2), Rrep(0, 0, 0, 0, 0), false, 0)
  }

  const ROUTE_TO_2: Entry := Entry(0, 2, 0, 1, [], 79_000, Active)

  /** Node 2 is reached through the neighbour 1; node 3 is a neighbour too. */
  ghost predicate ThreeRoutes(t: Table, to1: Entry, life3: int) {
    t.Keys == {1, 2, 3} && t[1] == to1 && t[2] == ROUTE_TO_2 && t[3] == Entry(0, 1, 0, 3, [], life3, Active)
  }

  /** Node 1 has moved behind node 3, which a newer RREQ of node 1 told. */
  lemma MovedRoute(n: Node, ttl: int)
    requires !n.reboot && n.ip == 99 && n.fw == map[]
    requires ThreeRoutes(n.table, Entry(0, 1, 0, 1, [], 4_000, Active), 4_000)
    ensures ThreeRoutes(Receive(n, 3, ttl, RreqMsg(Rreq(false, 1, 7, 50, 0, 1, 5)), At(1_000)).table,
                        Entry(5, 2, 0, 3, [], 51_500, Active), 5_000)
  {
    hide Receive, NeighborTable, RouteTable, ReverseNew;
    ForwardedRreqTable(n, 3, ttl, Rreq(false, 1, 7, 50, 0, 1, 5), At(1_000));
    MovedTable(n.table);
  }

  lemma MovedTable(t: Table)
    requires ThreeRoutes(t, Entry(0, 1, 0, 1, [], 4_000, Active), 4_000)
    ensures var m, t1 := Rreq(false, 1, 7, 50, 0, 1, 5), NeighborTable(t, 3, 0, 1_000 + NEIGHBOR_LIFE);
            ThreeRoutes(RouteTable(t1, 1, 5, 2, 3, ReverseNew(t1, m, 1_000), true),
                        Entry(5, 2, 0, 3, [], 51_500, Active), 5_000)
  {
  }

  /** The pass at 60 seconds invalidates nodes 1 and 3 and leaves the route to 2. */
  ghost predicate Lost(t: Table) {
    t.Keys == {1, 2, 3} && t[1].hop == INFINITY && t[1].life == 75_000 && t[2] == ROUTE_TO_2
  }

  lemma FirstPass(n: Node)
    requires ThreeRoutes(n.table, Entry(5, 2, 0, 3, [], 51_500, Active), 5_000)
    ensures Lost(RefreshEntries(n, At(60_000)).table)
  {
    var env := At(60_000);
    KeysAre([1, 2, 3], n.table.Keys);
    hide Keys, RefreshOne, Lost;
    var n1 := RefreshOne(n, 1, env);
    Unfold3(n, env);
    VisitOne(n);
    VisitTwo(n1);
    VisitThree(n1);
    hide RefreshAll, ThreeRoutes;
  }

  lemma Unfold3(n: Node, env: Env)
    ensures RefreshAll(n, [1, 2, 3], env) == RefreshOne(RefreshOne(RefreshOne(n, 1, env), 2, env), 3, env)
  {
    hide RefreshOne;
    assert [1, 2, 3][1..] == [2, 3] && [2, 3][1..] == [3] && [3][1..] == [];
    assert RefreshAll(n, [1, 2, 3], env) == RefreshAll(RefreshOne(n, 1, env), [2, 3], env);
    assert RefreshAll(RefreshOne(n, 1, env), [2, 3], env)
        == RefreshAll(RefreshOne(RefreshOne(n, 1, env), 2, env), [3], env);
  }

  lemma VisitOne(n: Node)
    requires ThreeRoutes(n.table, Entry(5, 2, 0, 3, [], 51_500, Active), 5_000)
    ensures ThreeRoutes(RefreshOne(n, 1, At(60_000)).table, Entry(6, INFINITY, 2, 3, [], 75_000, Invalid), 5_000)
  {
    assert IdleTime(n.table, 1, At(60_000)) == 6_000;
    assert Dead(n.table, 1) == {1};
    hide IdleTime;
  }

  lemma VisitTwo(n: Node)
    requires 2 in n.table && n.table[2] == ROUTE_TO_2
    ensures RefreshOne(n, 2, At(60_000)) == n
  {
  }

  lemma VisitThree(n: Node)
    requires ThreeRoutes(n.table, Entry(6, INFINITY, 2, 3, [], 75_000, Invalid), 5_000)
    ensures Lost(RefreshOne(n, 3, At(60_000)).table)
  {
    hide IdleTime;
    LongIdle(n.table);
    assert Dead(n.table, 3) == {3};
    hide Dead;
  }

  lemma LongIdle(t: Table)
    requires 3 in t && t[3].hop == 1
    ensures IdleTime(t, 3, At(60_000)) == 6_000
  {
    hide LeastIdle, Keys;
    NobodyIdle(t, 3, Keys(t.Keys), 6_000, At(60_000));
  }

  /** The pass at 80 seconds has erased node 1 when it visits node 2. */
  lemma SecondPass(n: Node)
    requires Lost(n.table)
    ensures NullLookup(n, [1, 2, 3], 1, At(80_000))
  {
    var env := At(80_000);
    var t := RefreshOne(n, 1, env).table;
    assert t == n.table - {1};
    assert IdleTime(t, 2, env) == 0;
    hide RefreshOne, IdleTime;
    assert [1, 2, 3][..1] == [1];
    assert RefreshAll(n, [1], env) == RefreshAll(RefreshOne(n, 1, env), [], env);
  }

  /**
   Not every event keeps next hops sound, and then the lookup can fail: node 2 is reached through the
   neighbour 1; a newer RREQ of node 1 arrives by way of node 3; one pass invalidates the expired
   routes to 1 and 3; the next one erases 1 and, visiting the used route to 2, finds no next hop.
   */
  lemma {:induction false} NextHopLookupCanFail(n: Node, ttl: int)
    requires !n.reboot && n.ip == 99 && n.fw == map[]
    requires ThreeRoutes(n.table, Entry(0, 1, 0, 1, [], 4_000, Active), 4_000)
    ensures NextHopsOk(n.table)
    ensures var m := Rreq(false, 1, 7, 50, 0, 1, 5);
            var n1 := Receive(n, 3, ttl, RreqMsg(m), At(1_000));
            var n2 := RefreshEntries(n1, At(60_000));
            NullLookup(n2, Keys(n2.table.Keys), 1, At(80_000))
  {
    hide Receive, Keys, NextHopsOk, NullLookup, ThreeRoutes, RefreshAll, Lost;
    ThreeRoutesSound(n.table);
    MovedRoute(n, ttl);
    var n1 := Receive(n, 3, ttl, RreqMsg(Rreq(false, 1, 7, 50, 0, 1, 5)), At(1_000));
    FirstPass(n1);
    var n2 := RefreshEntries(n1, At(60_000));
    hide RefreshEntries;
    LostKeys(n2.table);
    SecondPass(n2);
  }

  lemma ThreeRoutesSound(t: Table)
    requires ThreeRoutes(t, Entry(0, 1, 0, 1, [], 4_000, Active), 4_000)
    ensures NextHopsOk(t)
  {
  }

  lemma LostKeys(t: Table)
    requires Lost(t)
    ensures Keys(t.Keys) == [1, 2, 3]
  {
    KeysAre([1, 2, 3], t.Keys);
  }
}
