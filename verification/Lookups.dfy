/** What the lookups of the routing table mean to those who ask. */
module Lookups {
  import opened Base
  import opened Params
  import opened Node
  import opened Steps
  import opened Effects
  import opened Routes
  import opened Refresh
  import opened NextHops

  /** After reboot findActiveRoute finds exactly the destinations the kernel has a route to, until they expire. */
  lemma FoundIffInKernel(n: Node, d: Addr, now: int)
    requires RouteInv(n) && !n.reboot
    ensures FindActive(n.table, d, now) <==> d in n.fib && now < n.table[d].life
    ensures FindActive(n.table, d, now) ==> n.table[d].hop != INFINITY
  {
  }

  // ---- what an intermediate node answers ----

  /** The RREP toward the originator: the stored route, or what memory held if that route has expired. */
  function AnswerTo(n: Node, m: Rreq, env: Env): Rrep {
    if FindActive(n.table, m.dest, env.now) then
      var e := n.table[m.dest];
      Rrep(e.hop, m.dest, e.seqNum, m.src, U32(e.life - env.now))
    else env.junkRrep.(dest := m.dest, src := m.src)
  }

  /** The gratuitous RREP toward the destination; sending the other one has prolonged the originator's route. */
  function GratuitousTo(n: Node, m: Rreq, env: Env): Rrep {
    if FindActive(n.table, m.src, env.now) then
      var e := n.table[m.src];
      Rrep(e.hop, m.src, m.srcSeq, m.dest, U32(Max(e.life, env.now + ACTIVE_ROUTE_TIMEOUT) - env.now))
    else env.junkRrep.(dest := m.src, src := m.dest, destSeq := m.srcSeq)
  }

  /** One unicast, if d has an unexpired route with a next hop. */
  function SentToward(n: Node, d: Addr, now: int, m: Rrep): seq<Out> {
    if FindActive(n.table, d, now) && n.table[d].next != 0 then [Out(Some(n.table[d].next), -1, RrepMsg(m))] else []
  }

  /** Lookups do not see precursors. */
  ghost predicate SameButPrec(t: Table, t': Table) {
    t'.Keys == t.Keys && forall k :: k in t ==> t'[k] == t[k].(prec := t'[k].prec)
  }

  lemma CreateRREPIs(n: Node, from: Addr, m: Rreq, env: Env)
    requires m.dest != n.ip
    ensures var (n', rrep) := CreateRREP(n, from, m, env);
            && rrep == AnswerTo(n, m, env) && n' == n.(table := n'.table) && SameButPrec(n.table, n'.table)
            && (FindActive(n.table, m.dest, env.now) && FindValid(n.table, m.dest, m.destSeq)
                ==> m.destSeq <= rrep.destSeq)
  {
    hide AddPrecTo, SameButPrec;
    SameTable(n.table);
    if FindActive(n.table, m.dest, env.now) {
      AddsOnlyPrec(n.table, m.dest, from);
      var t1 := AddPrecTo(n.table, m.dest, from);
      if FindActive(t1, m.src, env.now) {
        AddsOnlyPrec(t1, m.src, n.table[m.dest].next);
        SameButPrecTrans(n.table, t1, AddPrecTo(t1, m.src, n.table[m.dest].next));
      }
    }
  }

  lemma SameTable(t: Table)
    ensures SameButPrec(t, t)
  {
  }

  lemma AddsOnlyPrec(t: Table, d: Addr, p: Addr)
    requires d in t
    ensures SameButPrec(t, AddPrecTo(t, d, p))
  {
  }

  lemma SameButPrecTrans(a: Table, b: Table, c: Table)
    requires SameButPrec(a, b) && SameButPrec(b, c)
    ensures SameButPrec(a, c)
  {
    assert forall k :: k in a ==> b[k] == a[k].(prec := b[k].prec) && c[k] == b[k].(prec := c[k].prec);
  }

  lemma UnicastIs(n: Node, toward: Addr, m: Rrep, now: int)
    ensures var n' := Unicast(n, toward, m, now);
            && n'.outbox == n.outbox + SentToward(n, toward, now, m) && n'.ip == n.ip
            && n'.table == if FindActive(n.table, toward, now)
                           then SetLife(n.table, toward, Max(n.table[toward].life, now + ACTIVE_ROUTE_TIMEOUT))
                           else n.table
  {
  }

  /** Exactly what an intermediate node sends in answer to a RREQ. */
  lemma {:induction false} AnswerSends(n: Node, from: Addr, m: Rreq, env: Env)
    requires m.dest != n.ip
    ensures AnswerRREQ(n, from, m, env).outbox
         == n.outbox + SentToward(n, m.src, env.now, AnswerTo(n, m, env))
            + if m.g then SentToward(n, m.dest, env.now, GratuitousTo(n, m, env)) else []
  {
    hide CreateRREP, Unicast;
    CreateRREPIs(n, from, m, env);
    var (n1, rrep) := CreateRREP(n, from, m, env);
    UnicastIs(n1, m.src, rrep, env.now);
    var n2 := Unicast(n1, m.src, rrep, env.now);
    UnicastIs(n2, m.dest, CreateGRREP(n2, m, env), env.now);
    hide SentToward;
    LookupsAgree(n, n1, n2, m, env);
  }

  lemma LookupsAgree(n: Node, n1: Node, n2: Node, m: Rreq, env: Env)
    requires SameButPrec(n.table, n1.table)
    requires n2.table == if FindActive(n1.table, m.src, env.now)
                         then SetLife(n1.table, m.src, Max(n1.table[m.src].life, env.now + ACTIVE_ROUTE_TIMEOUT))
                         else n1.table
    ensures SentToward(n1, m.src, env.now, AnswerTo(n, m, env)) == SentToward(n, m.src, env.now, AnswerTo(n, m, env))
    ensures CreateGRREP(n2, m, env) == GratuitousTo(n, m, env)
    ensures SentToward(n2, m.dest, env.now, GratuitousTo(n, m, env))
         == SentToward(n, m.dest, env.now, GratuitousTo(n, m, env))
  {
    assert m.src in n.table ==> n1.table[m.src] == n.table[m.src].(prec := n1.table[m.src].prec);
    assert m.dest in n.table ==> n1.table[m.dest] == n.table[m.dest].(prec := n1.table[m.dest].prec);
    hide SameButPrec;
  }

  /**
   A packet goes out over one route while the route it tells about is not active or has expired: the
   answer over the originator's about the destination's, the gratuitous one the other way round.
   */
  ghost predicate SendsJunk(n: Node, m: Rreq, now: int) {
    var fd, fs := FindActive(n.table, m.dest, now), FindActive(n.table, m.src, now);
    || (!fd && fs && n.table[m.src].next != 0)
    || (m.g && fd && !fs && n.table[m.dest].next != 0)
  }

  /** Uninitialised memory leaves an answering node exactly then. With neither route usable nothing is sent. */
  lemma {:induction false} AnswerSendsJunkIff(n: Node, from: Addr, m: Rreq, env: Env)
    ensures (forall junk :: AnswerRREQ(n, from, m, env.(junkRrep := junk)).outbox == AnswerRREQ(n, from, m, env).outbox)
            <==> m.dest == n.ip || !SendsJunk(n, m, env.now)
  {
    hide AnswerRREQ;
    if m.dest == n.ip {
      forall junk ensures AnswerRREQ(n, from, m, env.(junkRrep := junk)).outbox == AnswerRREQ(n, from, m, env).outbox {
        OwnAnswer(n, from, m, env, junk);
      }
    } else {
      forall junk
        ensures AnswerRREQ(n, from, m, env.(junkRrep := junk)).outbox
             == n.outbox + SentToward(n, m.src, env.now, AnswerTo(n, m, env.(junkRrep := junk)))
                + if m.g then SentToward(n, m.dest, env.now, GratuitousTo(n, m, env.(junkRrep := junk))) else []
      {
        AnswerSends(n, from, m, env.(junkRrep := junk));
      }
      AnswerSends(n, from, m, env);
      var other := env.junkRrep.(hop := U8(env.junkRrep.hop + 1));
      if SendsJunk(n, m, env.now) {
        var i := |n.outbox|;
        assert AnswerRREQ(n, from, m, env.(junkRrep := other)).outbox[i] != AnswerRREQ(n, from, m, env).outbox[i];
      }
    }
  }

  /**
   For example: a RREQ with the G flag that has travelled 52 hops or more from an unknown originator leaves
   a reverse route that is expired at once, so the gratuitous RREP takes its hop count from memory.
   */
  lemma FarOriginatorGetsJunk(n: Node, from: Addr, ttl: int, m: Rreq, env: Env)
    requires !n.reboot && n.outbox == [] && from != n.ip && m.src != n.ip && m.dest != n.ip
    requires m.src != from && m.dest != from && m.dest != m.src && m.src !in n.table && (m.src, m.id) !in n.fw
    requires m.g && 52 <= m.hop && FindValid(n.table, m.dest, m.destSeq) && env.now < n.table[m.dest].life
    requires n.table[m.dest].next != 0
    ensures Out(Some(n.table[m.dest].next), -1,
                RrepMsg(env.junkRrep.(dest := m.src, src := m.dest, destSeq := m.srcSeq)))
            in Receive(n, from, ttl, RreqMsg(m), env).outbox
  {
    hide RecvRREQ, AnswerRREQ;
    var n1 := RecvRREQ(n, from, m, env.now).0;
    FarReverseRoute(n, from, m, env.now);
    AnswerSends(n1, from, m, env);
    var out := Out(Some(n.table[m.dest].next), -1,
                   RrepMsg(env.junkRrep.(dest := m.src, src := m.dest, destSeq := m.srcSeq)));
    assert SentToward(n1, m.dest, env.now, GratuitousTo(n1, m, env)) == [out];
    assert Receive(n, from, ttl, RreqMsg(m), env) == AnswerRREQ(n1, from, m, env);
    hide SentToward;
    assert out in AnswerRREQ(n1, from, m, env).outbox;
  }

  lemma FarReverseRoute(n: Node, from: Addr, m: Rreq, now: int)
    requires m.src != n.ip && m.dest != n.ip && m.src != from && m.dest != from && m.dest != m.src
    requires m.src !in n.table && (m.src, m.id) !in n.fw && 52 <= m.hop && FindValid(n.table, m.dest, m.destSeq)
    ensures var (n1, m1, v) := RecvRREQ(n, from, m, now);
            && v.GenRrep? && m1 == m && !FindActive(n1.table, m.src, now) && m.dest in n1.table
            && n1.table[m.dest] == n.table[m.dest] && n1.ip == n.ip
  {
    hide NeighborUpdate, RouteUpdate;
    RecvRREQTable(n, from, m, now);
    RecvRREQShape(n, from, m, now);
    var n1 := NeighborUpdate(n, from, m.src, 0, now + NEIGHBOR_LIFE, now);
    NeighborUpdateEffect(n, from, m.src, 0, now + NEIGHBOR_LIFE, now);
    var n2 := n1.(fw := n1.fw[(m.src, m.id) := now + PATH_TRAVERSAL_TIME],
                  trace := n1.trace + [Handled(m.src, m.id, now)]);
    RouteUpdateEffect(n2, m.src, m.srcSeq, m.hop + 1, from, ReverseNew(n2.table, m, now), true, now);
  }

  lemma OwnAnswer(n: Node, from: Addr, m: Rreq, env: Env, junk: Rrep)
    requires m.dest == n.ip
    ensures AnswerRREQ(n, from, m, env.(junkRrep := junk)) == AnswerRREQ(n, from, m, env)
  {
  }

  /**
   However a live route is lost, getTTL goes on answering its hop count, whatever the time: the first
   ring of the next search reaches as far as the destination last was, and two hops further. Only a
   broken route that the refresh pass invalidates keeps the last hop count it had.
   */
  lemma RingRemembers(n: Node, d: Addr, env: Env, t: int)
    requires d in n.table && n.table[d].hop != INFINITY
    ensures var h := n.table[d].hop;
            && GetTTL(NeighborTimeout(n, d, env).table, d, t) == h
            && (forall u: Unreach :: u.dest == d ==> GetTTL(InvalidateOne(n, u, env.now).table, d, t) == h)
            && GetTTL(LRHandler(n, d, env.now).table, d, t) == h
            && (forall dead {:trigger Kill(n, dead, env.now)} :: d in dead ==>
                  GetTTL(Kill(n, dead, env.now).table, d, t) == if IsActive(n.table, d) then h else n.table[d].lastHop)
            && (IsActive(n.table, d) && n.table[d].next in n.table ==>
                  GetTTL(NeighborTimeout(n, n.table[d].next, env).table, d, t) == h)
  {
    LRHandlerTable(n, d, env.now);
    hide LRHandler;
  }

  // ---- a received hop count of 59 ----

  /** A kernel route is not deleted by a pass while its entry is expired with INFINITY hops, or gone. */
  lemma {:induction false} PassKeepsKernelRoute(n: Node, ks: seq<Addr>, env: Env, j: Addr)
    requires NextHopsOk(n.table) && j in n.fib
    requires j in n.table ==> n.table[j].life <= env.now && n.table[j].hop == INFINITY
    ensures j in RefreshAll(n, ks, env).fib
    decreases ks
  {
    hide RefreshOne;
    if ks != [] {
      VisitNextHops(n, ks[0], env);
      VisitKeepsKernelRoute(n, ks[0], env, j);
      if j in n.table {
        VisitSparesInfinite(n, ks[0], env, j);
      } else {
        RefreshOneFrame(n, ks[0], env);
      }
      hide NextHopsOk;
      PassKeepsKernelRoute(RefreshOne(n, ks[0], env), ks[1..], env, j);
    }
  }

  lemma VisitKeepsKernelRoute(n: Node, k: Addr, env: Env, j: Addr)
    requires j in n.fib && !IsLive(n.table, j)
    ensures j in RefreshOne(n, k, env).fib
  {
    hide IdleTime, Invalidate;
  }

  /**
   From a received hop count of 59 to a kernel route nobody owns: a RREP with that hop count is taken
   from a neighbour; once its lifetime has run out, the next refresh pass erases the entry and leaves
   the kernel route.
   */
  lemma {:induction false} InfiniteRouteStays(n: Node, nhop: Addr, m: Rrep, now: int, env: Env)
    requires RouteInv(n) && !n.reboot && NextHopsOk(n.table)
    requires m.hop == 59 && m.dest != nhop && IsNeighbor(n.table, nhop) && Accepts(n.table, m.dest, m.destSeq, 60)
    requires forall j :: IsLive(n.table, j) && j != m.dest ==> n.table[j].next != m.dest
    requires now + m.life <= env.now
    ensures var n' := RefreshEntries(ForwardRouteUpdate(n, nhop, m, now), env);
            m.dest !in n'.table && m.dest in n'.fib && !n'.reboot && !KernelOk(n')
  {
    hide RouteUpdate, NextHopsOk, Keys;
    var n1 := ForwardRouteUpdate(n, nhop, m, now);
    RouteUpdateParts(n, m.dest, m.destSeq, 60, nhop, now + m.life, false, now);
    RouteKeepsNextHopsIff(n.table, m.dest, m.destSeq, 60, nhop, now + m.life, false);
    assert n1.table[m.dest].hop == INFINITY && n1.table[m.dest].life == now + m.life;
    RefreshErases(n1, env, m.dest);
    PassKeepsKernelRoute(n1, Keys(n1.table.Keys), env, m.dest);
    RefreshAllFrame(n1, Keys(n1.table.Keys), env);
    hide RefreshAll;
    var n' := RefreshEntries(n1, env);
    assert m.dest in n'.fib.Keys && m.dest !in ActiveKeys(n'.table);
  }
}
