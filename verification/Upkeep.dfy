/** What the refresh pass, a silent neighbour, a failed repair and a RERR do to each entry. */
module Upkeep {
  import opened Base
  import opened Params
  import opened Node
  import opened Steps
  import opened Effects
  import opened Refresh
  import opened ErrorCascade
  import opened Messages

  // ---- the refresh pass: which routes are in use ----

  /** The report of the route module about packets for k. */
  predicate OwnUse(k: Addr, env: Env) {
    0 <= env.idle(k, true) < 3000
  }

  /** Packets went over the neighbour k on behalf of another entry; -1 says that there were none. */
  predicate UsedThrough(t: Table, k: Addr, j: Addr, env: Env) {
    j in t && j != k && t[j].next == k && env.idle(j, false) != -1 && env.idle(j, false) < 3000
  }

  ghost predicate InUse(t: Table, k: Addr, env: Env)
    requires k in t
  {
    OwnUse(k, env) || (t[k].hop == 1 && exists j :: UsedThrough(t, k, j, env))
  }

  /** The idle times that count for k. */
  predicate Reported(t: Table, k: Addr, j: Addr, env: Env) {
    j in t && j != k && t[j].next == k && env.idle(j, false) != -1
  }

  lemma {:induction false} LeastIdleIs(t: Table, k: Addr, ks: seq<Addr>, idle: int, env: Env)
    ensures var i := LeastIdle(t, k, ks, idle, env);
            && i <= idle && (forall j :: j in ks && Reported(t, k, j, env) ==> i <= env.idle(j, false))
            && (i == idle || exists j :: j in ks && Reported(t, k, j, env) && i == env.idle(j, false))
    decreases ks
  {
    if ks != [] {
      var j := ks[0];
      var i := if j != k && j in t && t[j].next == k then env.idle(j, false) else -1;
      LeastIdleIs(t, k, ks[1..], if i != -1 && i < idle then i else idle, env);
    }
  }

  /** An entry is kept for another three seconds from its last use, if it or a route through it is in use. */
  lemma {:induction false} IdleIffUnused(t: Table, k: Addr, env: Env)
    requires k in t
    ensures IdleTime(t, k, env) < 3000 <==> InUse(t, k, env)
    ensures OwnUse(k, env) ==> IdleTime(t, k, env) <= env.idle(k, true)
    ensures t[k].hop == 1 ==> forall j :: Reported(t, k, j, env) ==> IdleTime(t, k, env) <= env.idle(j, false)
    ensures var i := IdleTime(t, k, env);
            || i == env.idle(k, true) || (env.idle(k, true) < 0 && i == 6000)
            || (t[k].hop == 1 && exists j :: Reported(t, k, j, env) && i == env.idle(j, false))
  {
    var own := if env.idle(k, true) < 0 then 2 * ACTIVE_ROUTE_TIMEOUT else env.idle(k, true);
    LeastIdleIs(t, k, Keys(t.Keys), own, env);
    hide Keys, LeastIdle;
    var i := IdleTime(t, k, env);
    if t[k].hop == 1 && i < 3000 && !OwnUse(k, env) {
      assert i != own;
      var j :| j in Keys(t.Keys) && Reported(t, k, j, env) && i == env.idle(j, false);
      assert UsedThrough(t, k, j, env);
    }
    if j :| t[k].hop == 1 && UsedThrough(t, k, j, env) {
      assert Reported(t, k, j, env);
    }
  }

  // ---- the refresh pass: one visit ----

  /** e as it is after a loss: it can be asked for again, one number further if it was in use. */
  function Lost(e: Entry, now: int): Entry {
    Entry(if e.flag.Active? then U32(e.seqNum + 1) else e.seqNum, 60, if e.flag.Active? then e.hop else e.lastHop,
          e.next, e.prec, now + 15000, Invalid)
  }

  /** k goes down, and with a neighbour every finite entry through it. */
  predicate GoesDown(t: Table, k: Addr, j: Addr) {
    k in t && j in t && (j == k || (t[k].hop == 1 && t[j].next == k && t[j].hop != 60))
  }

  lemma KillExact(n: Node, k: Addr, now: int, j: Addr)
    requires k in n.table
    ensures var t, n' := n.table, Kill(n, Dead(n.table, k), now);
            && n'.table.Keys == t.Keys
            && (j in t ==> n'.table[j] == if GoesDown(t, k, j) then Lost(t[j], now) else t[j])
            && (j in n'.fib <==> j in n.fib && !(GoesDown(t, k, j) && t[j].flag.Active?))
            && (j in n'.fib ==> n'.fib[j] == n.fib[j])
  {
  }

  lemma ProlongExact(t: Table, k: Addr, life: int, j: Addr)
    requires k in t
    ensures var t' := Prolong(t, k, life);
            t'.Keys == t.Keys && (j in t ==> t'[j] == if j == k || j == t[k].next then t[j].(life := life) else t[j])
  {
  }

  lemma {:induction false} VisitExact(n: Node, k: Addr, env: Env, j: Addr)
    requires k in n.table && n.table[k].life <= env.now
    ensures var t, n' := n.table, RefreshOne(n, k, env);
            if t[k].hop == 60 then
              n'.fib == n.fib && (j in n'.table <==> j in t && j != k) && (j in n'.table ==> n'.table[j] == t[j])
            else if InUse(t, k, env) then
              && n'.fib == n.fib && n'.table.Keys == t.Keys
              && (j in t ==> n'.table[j] == if j == k || j == t[k].next
                                            then t[j].(life := env.now + 3000 - IdleTime(t, k, env)) else t[j])
            else
              && n'.table.Keys == t.Keys
              && (j in t ==> n'.table[j] == if GoesDown(t, k, j) then Lost(t[j], env.now) else t[j])
              && (j in n'.fib <==> j in n.fib && !(GoesDown(t, k, j) && t[j].flag.Active?))
              && (j in n'.fib ==> n'.fib[j] == n.fib[j])
  {
    hide IdleTime, InUse, Kill, Prolong, Lost, Dead, GoesDown;
    IdleIffUnused(n.table, k, env);
    KillExact(n, k, env.now, j);
    ProlongExact(n.table, k, env.now - IdleTime(n.table, k, env) + ACTIVE_ROUTE_TIMEOUT, j);
  }

  lemma VisitSkips(n: Node, k: Addr, env: Env)
    requires k in n.table ==> env.now < n.table[k].life
    ensures RefreshOne(n, k, env) == n
  {
  }

  // ---- the refresh pass: whole passes ----

  /** Not expired, or reported in use. */
  predicate Safe(t: Table, k: Addr, env: Env) {
    k in t && t[k].hop != 60 && (env.now < t[k].life || OwnUse(k, env))
  }

  lemma VisitSafe(n: Node, k: Addr, env: Env, j: Addr, via: Addr)
    requires Safe(n.table, j, env) && Safe(n.table, via, env) && n.table[j].next == via
    requires NextHopsOk(n.table)
    ensures var n' := RefreshOne(n, k, env);
            && Safe(n'.table, j, env) && Safe(n'.table, via, env)
            && CoreOf(n'.table[j]) == CoreOf(n.table[j]) && (j in n'.fib <==> j in n.fib)
  {
    if k in n.table && n.table[k].life <= env.now {
      IdleIffUnused(n.table, k, env);
      VisitExact(n, k, env, j);
      VisitExact(n, k, env, via);
      assert IsLive(n.table, k) && n.table[k].hop == 1 ==> n.table[k].next == k;
      assert IsLive(n.table, j);
      hide RefreshOne, IdleTime, NextHopsOk, Lost;
    } else {
      VisitSkips(n, k, env);
    }
  }

  /** In a sound table a route in use survives the pass as it is, if its next hop is in use or has not expired. */
  lemma {:induction false} PassSpares(n: Node, ks: seq<Addr>, env: Env, j: Addr, via: Addr)
    requires NextHopsOk(n.table)
    requires Safe(n.table, j, env) && Safe(n.table, via, env) && n.table[j].next == via
    ensures var n' := RefreshAll(n, ks, env);
            j in n'.table && CoreOf(n'.table[j]) == CoreOf(n.table[j]) && (j in n'.fib <==> j in n.fib)
    decreases ks
  {
    hide RefreshOne, Safe, NextHopsOk;
    SafeIn(n.table, j, env);
    if ks != [] {
      VisitSafe(n, ks[0], env, j, via);
      VisitNextHops(n, ks[0], env);
      var n1 := RefreshOne(n, ks[0], env);
      assert j in n1.table && n1.table[j].next == via by { assert Safe(n1.table, j, env); SafeIn(n1.table, j, env); }
      PassSpares(n1, ks[1..], env, j, via);
    }
  }

  lemma SafeIn(t: Table, k: Addr, env: Env)
    requires Safe(t, k, env)
    ensures k in t
  {
  }

  lemma {:induction false} UsedRoutesSurvive(n: Node, env: Env, j: Addr)
    requires NextHopsOk(n.table) && Safe(n.table, j, env) && Safe(n.table, n.table[j].next, env)
    ensures var n' := RefreshEntries(n, env);
            && j in n'.table && CoreOf(n'.table[j]) == CoreOf(n.table[j]) && env.now < n'.table[j].life
            && (j in n'.fib <==> j in n.fib)
  {
    hide RefreshAll, RefreshOne;
    PassSpares(n, Keys(n.table.Keys), env, j, n.table[j].next);
    RefreshPass(n, env);
  }

  /** No report of any use in the last three seconds. */
  ghost predicate NoUse(env: Env) {
    forall k: Addr {:trigger OwnUse(k, env)} ::
      !OwnUse(k, env) && (env.idle(k, false) == -1 || env.idle(k, false) >= 3000)
  }

  lemma NoneInUse(t: Table, k: Addr, env: Env)
    requires NoUse(env) && k in t
    ensures !InUse(t, k, env)
  {
    forall j ensures !UsedThrough(t, k, j, env) {
      assert !OwnUse(j, env);
    }
  }

  /** An entry that has gone down waits for its deletion. */
  lemma {:induction false} DownStays(n: Node, ks: seq<Addr>, env: Env, j: Addr)
    requires NoUse(env) && j in n.table && n.table[j].hop == 60 && env.now < n.table[j].life
    ensures var n' := RefreshAll(n, ks, env);
            j in n'.table && n'.table[j] == n.table[j] && (j in n'.fib <==> j in n.fib)
    decreases ks
  {
    hide RefreshOne, NoUse, InUse, IdleTime, Lost;
    if ks != [] {
      var k := ks[0];
      if k in n.table && n.table[k].life <= env.now {
        NoneInUse(n.table, k, env);
        VisitExact(n, k, env, j);
      } else {
        VisitSkips(n, k, env);
      }
      DownStays(RefreshOne(n, k, env), ks[1..], env, j);
    }
  }

  /** Does the visit of one of ks take the live entry j down? */
  predicate TakenDown(t: Table, ks: seq<Addr>, j: Addr, now: int)
    requires j in t
  {
    (j in ks && t[j].life <= now) || (t[j].next in ks && t[j].next in t && t[t[j].next].life <= now)
  }

  lemma VisitUnused(n: Node, k: Addr, env: Env, j: Addr)
    requires NextHopsOk(n.table) && NoUse(env) && IsLive(n.table, j)
    ensures var t, n' := n.table, RefreshOne(n, k, env);
            var via := t[j].next;
            if TakenDown(t, [k], j, env.now) then
              && j in n'.table && n'.table[j] == Lost(t[j], env.now)
              && (j in n'.fib <==> j in n.fib && !t[j].flag.Active?)
            else
              && j in n'.table && n'.table[j] == t[j] && (j in n'.fib <==> j in n.fib)
              && via in t && via in n'.table && n'.table[via] == t[via]
  {
    hide RefreshOne, NoUse, InUse, IdleTime, Lost;
    var via := n.table[j].next;
    assert IsNeighbor(n.table, via) && IsLive(n.table, via);
    if k in n.table && n.table[k].life <= env.now {
      NoneInUse(n.table, k, env);
      VisitExact(n, k, env, j);
      VisitExact(n, k, env, via);
    } else {
      VisitSkips(n, k, env);
    }
    hide NextHopsOk;
  }

  lemma {:induction false} PassUnused(n: Node, ks: seq<Addr>, env: Env, j: Addr)
    requires NextHopsOk(n.table) && NoUse(env) && IsLive(n.table, j)
    ensures var t, n' := n.table, RefreshAll(n, ks, env);
            && j in n'.table
            && n'.table[j] == (if TakenDown(t, ks, j, env.now) then Lost(t[j], env.now) else t[j])
            && (j in n'.fib <==> j in n.fib && !(TakenDown(t, ks, j, env.now) && t[j].flag.Active?))
    decreases ks
  {
    hide RefreshOne, NoUse, NextHopsOk;
    if ks != [] {
      var n1 := RefreshOne(n, ks[0], env);
      VisitUnused(n, ks[0], env, j);
      VisitNextHops(n, ks[0], env);
      assert TakenDown(n.table, ks, j, env.now)
             <==> TakenDown(n.table, [ks[0]], j, env.now) || TakenDown(n.table, ks[1..], j, env.now) by {
        assert ks == [ks[0]] + ks[1..];
      }
      if TakenDown(n.table, [ks[0]], j, env.now) {
        DownStays(n1, ks[1..], env, j);
      } else {
        PassUnused(n1, ks[1..], env, j);
      }
    }
  }

  /**
   When nothing is in use, a sound table loses in one pass exactly the live routes that have expired or
   whose next hop has: with the next number if they were active, and without their kernel routes.
   */
  lemma {:induction false} UnusedGoDown(n: Node, env: Env, j: Addr)
    requires NextHopsOk(n.table) && NoUse(env) && IsLive(n.table, j)
    ensures var t, n' := n.table, RefreshEntries(n, env);
            var down := t[j].life <= env.now || (t[j].next in t && t[t[j].next].life <= env.now);
            && j in n'.table && n'.table[j] == (if down then Lost(t[j], env.now) else t[j])
            && (j in n'.fib <==> j in n.fib && !(down && t[j].flag.Active?))
  {
    hide RefreshAll, Lost;
    assert IsNeighbor(n.table, n.table[j].next);
    PassUnused(n, Keys(n.table.Keys), env, j);
  }

  // ---- a silent neighbour ----

  /** A route in use over the silent neighbour, which becomes broken and is to be repaired. */
  predicate GoesWith(t: Table, nb: Addr, k: Addr) {
    k in t && k != nb && t[k].next == nb && t[k].flag.Active?
  }

  /**
   A neighbour that is not heard of for too long: its entry is broken for thirty seconds and every active
   route over it for three, each one number further; all of them leave the kernel and enter the repair
   list. Only the entry of a neighbour that was lost before gets its last hop count back instead.
   */
  lemma {:induction false} TimeoutExact(n: Node, nb: Addr, env: Env, k: Addr)
    requires nb in n.table
    ensures var t, n', e := n.table, NeighborTimeout(n, nb, env), n.table[nb];
            && n'.table.Keys == t.Keys
            && n'.table[nb] == (if e.hop == 60 then e.(flag := Broken, life := env.now + 30000, hop := e.lastHop)
                                else e.(flag := Broken, life := env.now + 30000, lastHop := e.hop,
                                        seqNum := U32(e.seqNum + 1)))
            && (k in t && k != nb ==>
                  n'.table[k] == if GoesWith(t, nb, k)
                                 then t[k].(flag := Broken, life := env.now + 3000, lastHop := t[k].hop,
                                            seqNum := U32(t[k].seqNum + 1))
                                 else t[k])
            && (k in n'.fib <==> k in n.fib && !GoesWith(t, nb, k) && !(k == nb && e.hop != 60))
            && (k in n'.fib ==> n'.fib[k] == n.fib[k])
            && (k in n'.repair <==> k in n.repair || k == nb || GoesWith(t, nb, k))
  {
  }

  // ---- a local repair that fails ----

  /** Those who use the route are told of its loss, the Local Agent is refused, and the repair is over. */
  lemma {:induction false} RepairFails(n: Node, d: Addr, now: int, k: Addr)
    requires d in n.table
    ensures var t, n', e := n.table, LRHandler(n, d, now), n.table[d];
            && n'.table.Keys == t.Keys
            && n'.table[d] == Entry(e.seqNum, 60, e.hop, e.next, e.prec, now + 15000, Invalid)
            && (k in t && k != d ==> n'.table[k] == t[k]) && n'.fib == n.fib && n'.repair == n.repair - {d}
            && Answers(n'.trace) == Answers(n.trace) + [(d, false)]
            && n'.outbox == n.outbox + if e.prec == [] then []
                                       else [Out(if |e.prec| == 1 then Some(e.prec[0]) else None, 1,
                                                 RerrMsg(Rerr(false, 1, [Unreach(d, e.seqNum)])))]
  {
    hide Answers;
    AnswersAppend(n.trace, Reply(d, false, d in n.fib));
  }

  // ---- errors ----

  /** The first number that a list names for k, or e. */
  function FirstNumber(l: seq<Unreach>, k: Addr, e: u32): u32 {
    if l == [] then e else if l[0].dest == k then l[0].seqNum else FirstNumber(l[1..], k, e)
  }

  /** The highest number that a list names for k, and at least e. */
  function HighestNumber(l: seq<Unreach>, k: Addr, e: u32): u32 {
    if l == [] then e
    else HighestNumber(l[1..], k, if l[0].dest == k && l[0].seqNum > e then l[0].seqNum else e)
  }

  lemma {:induction false} InvalidNumbers(t: Table, dests: seq<Unreach>, k: Addr)
    requires k in t
    ensures var t' := UpdateInvalid(t, dests);
            && t'.Keys == t.Keys
            && t'[k] == if t[k].hop == 60 then t[k].(seqNum := HighestNumber(dests, k, t[k].seqNum)) else t[k]
    decreases dests
  {
    if dests != [] {
      var u := dests[0];
      var t1 := if u.dest in t && t[u.dest].hop == INFINITY && u.seqNum > t[u.dest].seqNum
                then t[u.dest := t[u.dest].(seqNum := u.seqNum)] else t;
      InvalidNumbers(t1, dests[1..], k);
    }
  }

  /** A finite entry over the sender that is listed goes down with the number in the list. */
  lemma {:induction false} ValidEntries(n: Node, dests: seq<Unreach>, from: Addr, now: int, k: Addr)
    requires k in n.table
    ensures var t, n' := n.table, UpdateValid(n, dests, from, now);
            var hit := k in DestsOf(dests) && t[k].hop != 60 && t[k].next == from;
            && n'.table.Keys == t.Keys
            && n'.table[k] == (if hit then Entry(FirstNumber(dests, k, 0), 60, t[k].hop, from, t[k].prec, now + 15000,
                                                 Invalid)
                               else t[k])
            && (k in n'.fib <==> k in n.fib && !(hit && t[k].flag.Active?))
            && (k in n'.repair <==> k in n.repair && !(hit && t[k].flag.Broken?))
    decreases dests
  {
    if dests != [] {
      hide InvalidateOne, DestsOf, Hit;
      var u := dests[0];
      ListedFirst(dests, k);
      HitOrNot(n, u, from, now, k);
      ValidEntries(if Hit(n.table, u.dest, from) then InvalidateOne(n, u, now) else n, dests[1..], from, now, k);
    }
  }

  lemma ListedFirst(dests: seq<Unreach>, k: Addr)
    requires dests != []
    ensures k in DestsOf(dests) <==> k == dests[0].dest || k in DestsOf(dests[1..])
  {
  }

  lemma HitOrNot(n: Node, u: Unreach, from: Addr, now: int, k: Addr)
    requires k in n.table
    ensures var t, hit := n.table, Hit(n.table, u.dest, from);
            var n' := if hit then InvalidateOne(n, u, now) else n;
            && (hit <==> u.dest in t && t[u.dest].hop != 60 && t[u.dest].next == from)
            && n'.table.Keys == t.Keys
            && n'.table[k] == (if hit && k == u.dest
                               then Entry(u.seqNum, 60, t[k].hop, from, t[k].prec, now + 15000, Invalid) else t[k])
            && (k in n'.fib <==> k in n.fib && !(hit && k == u.dest && t[k].flag.Active?))
            && (k in n'.repair <==> k in n.repair && !(hit && k == u.dest && t[k].flag.Broken?))
  {
  }

  /**
   What a RERR without the N flag does to the entry for k: a listed live entry over its sender goes down
   with the number listed for it, a listed dead one takes the higher number, and no other changes but
   that the sender is a neighbour.
   */
  lemma {:induction false} RerrTeaches(n: Node, from: Addr, ttl: int, m: Rerr, env: Env, k: Addr)
    requires from != n.ip && !m.nFlag && k in Before(n, from, env.now)
    ensures var t, t' := Before(n, from, env.now), Receive(n, from, ttl, RerrMsg(m), env).table;
            && k in t'
            && t'[k] == if t[k].hop == 60 then t[k].(seqNum := HighestNumber(m.dests, k, t[k].seqNum))
                        else if k in DestsOf(m.dests) && t[k].next == from
                        then Entry(FirstNumber(m.dests, k, 0), 60, t[k].hop, from, t[k].prec, env.now + 15000, Invalid)
                        else t[k]
    ensures var t, n' := Before(n, from, env.now), Receive(n, from, ttl, RerrMsg(m), env);
            var down := t[k].hop != 60 && k in DestsOf(m.dests) && t[k].next == from && t[k].flag.Active?;
            k in n'.fib <==> !down && (k in n.fib || (!n.reboot && k == from && !IsActive(n.table, from)))
  {
    hide NeighborUpdate, NeighborTable, UpdateInvalid, UpdateValid, NewDests, HasPrec, FirstNumber, HighestNumber,
         DestsOf;
    var life := env.now + NEIGHBOR_LIFE;
    NeighborUpdateEffect(n, from, from, 0, life, env.now);
    InvalidNumbers(Before(n, from, env.now), m.dests, k);
    var n1 := if n.reboot then n.(table := NeighborTable(n.table, from, 0, life))
              else NeighborUpdate(n, from, from, 0, life, env.now);
    var n2 := n1.(table := UpdateInvalid(n1.table, m.dests));
    ValidEntries(n2, m.dests, from, env.now, k);
    ForwardTable(n2, from, m, env.now);
    NeighborFib(n, from, from, 0, life, env.now);
  }

  lemma ForwardTable(n: Node, from: Addr, m: Rerr, now: int)
    ensures var n', n1 := ForwardRERR(n, from, m, now), UpdateValid(n, m.dests, from, now);
            n'.table == n1.table && n'.fib == n1.fib && n'.repair == n1.repair
  {
    hide UpdateValid, NewDests, HasPrec;
  }

  lemma NeighborFib(n: Node, nb: Addr, src: Addr, seqNum: u32, life: int, now: int)
    ensures NeighborUpdate(n, nb, src, seqNum, life, now).fib
         == if IsActive(n.table, nb) then n.fib else n.fib[nb := nb]
  {
    hide NeighborTable, HasDiscovery;
  }

  /** A RERR about one destination that is used over its sender. */
  predicate AboutUsed(t: Table, from: Addr, m: Rerr, now: int) {
    m.destCnt == 1 && m.dests != [] && FindActive(t, m.dests[0].dest, now) && t[m.dests[0].dest].next == from
  }

  lemma LocalRepairIs(n: Node, from: Addr, m: Rerr, now: int, k: Addr)
    requires n.outbox == [] && k in n.table
    ensures var t, n' := n.table, LocalRepairRERR(n, from, m, now);
            && n'.outbox == (if AboutUsed(t, from, m, now) && t[m.dests[0].dest].prec != [] then
                               var prec := t[m.dests[0].dest].prec;
                               [Out(if |prec| == 1 then Some(prec[0]) else None, 1,
                                    RerrMsg(Rerr(true, 1, [m.dests[0]])))]
                             else [])
            && k in n'.table
            && n'.table[k] == if AboutUsed(t, from, m, now) && k == m.dests[0].dest
                              then t[k].(seqNum := m.dests[0].seqNum) else t[k]
  {
  }

  /**
   A RERR with the N flag about one destination that is used over its sender only takes over the number;
   those who use the route here are told the same. Otherwise dead entries take higher numbers.
   */
  lemma {:induction false} RepairTeaches(n: Node, from: Addr, ttl: int, m: Rerr, env: Env, k: Addr)
    requires !n.reboot && n.outbox == [] && from != n.ip && m.nFlag && k in Before(n, from, env.now)
    ensures var t, n' := Before(n, from, env.now), Receive(n, from, ttl, RerrMsg(m), env);
            var used := AboutUsed(t, from, m, env.now);
            && n'.outbox == (if used && t[m.dests[0].dest].prec != [] then
                               var prec := t[m.dests[0].dest].prec;
                               [Out(if |prec| == 1 then Some(prec[0]) else None, 1,
                                    RerrMsg(Rerr(true, 1, [m.dests[0]])))]
                             else [])
            && k in n'.table
            && n'.table[k] == if used && k == m.dests[0].dest then t[k].(seqNum := m.dests[0].seqNum)
                              else if t[k].hop == 60 then t[k].(seqNum := HighestNumber(m.dests, k, t[k].seqNum))
                              else t[k]
  {
    hide NeighborUpdate, NeighborTable, UpdateInvalid, LocalRepairRERR, HighestNumber;
    var life := env.now + NEIGHBOR_LIFE;
    NeighborUpdateEffect(n, from, from, 0, life, env.now);
    var n1 := NeighborUpdate(n, from, from, 0, life, env.now);
    InvalidNumbers(n1.table, m.dests, k);
    if m.dests != [] {
      UpdateInvalidSeqOnly(n1.table, m.dests);
      SeqOnlyFind(n1.table, UpdateInvalid(n1.table, m.dests), m.dests[0].dest, env.now);
      SamePrec(n1.table, UpdateInvalid(n1.table, m.dests), m.dests[0].dest);
    }
    LocalRepairIs(n1.(table := UpdateInvalid(n1.table, m.dests)), from, m, env.now, k);
  }

  lemma SamePrec(t: Table, t': Table, d: Addr)
    requires SeqOnly(t, t')
    ensures d in t ==> d in t' && t'[d].prec == t[d].prec
  {
  }
}
