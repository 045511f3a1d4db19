/** The routes a node has after a RREQ or RREP: which ones, where to, and until when they can be used. */
module Learning {
  import opened Base
  import opened Params
  import opened Timers
  import opened Node
  import opened Steps
  import opened Effects
  import opened Lookups
  import opened Messages

  /** A route that a message tells of is taken unless an active one is as good. */
  predicate Fresh(t: Table, d: Addr, seqNum: u32, hop: int) {
    !IsActive(t, d) || seqNum > t[d].seqNum || (seqNum == t[d].seqNum && hop < t[d].hop)
  }

  /** An entry as it was, but for its precursors and a lifetime that the sending of a packet may prolong. */
  predicate Untouched(t: Table, t': Table, k: Addr, now: int, used: bool) {
    (k in t' <==> k in t)
    && (k in t ==>
          t'[k] == t[k].(prec := t'[k].prec, life := if used && FindActive(t, k, now) then Max(t[k].life, now + 3000)
                                                     else t[k].life))
  }

  predicate RouteIs(t: Table, d: Addr, next: Addr, hop: u8, seqNum: u32, life: int) {
    d in t && t[d].next == next && t[d].hop == hop && t[d].seqNum == seqNum && t[d].life == life && t[d].flag.Active?
  }

  /** A usable entry: where to, and exactly until when it is found. */
  ghost predicate LeadsTo(t: Table, d: Addr, next: Addr, hop: u8, seqNum: u32, end: int) {
    && d in t && t[d].next == next && t[d].hop == hop && t[d].seqNum == seqNum
    && forall now :: FindActive(t, d, now) <==> now < end
  }

  lemma RouteLeads(t: Table, t': Table, d: Addr, next: Addr, hop: u8, seqNum: u32, life: int, now: int, used: bool)
    requires RouteIs(t, d, next, hop, seqNum, life) && Untouched(t, t', d, now, used)
    ensures LeadsTo(t', d, next, hop, seqNum, if used && now < life < now + 3000 then now + 3000 else life)
  {
  }

  lemma UntouchedTrans(a: Table, b: Table, c: Table, k: Addr, now: int, used: bool)
    requires Untouched(a, b, k, now, false) && Untouched(b, c, k, now, used)
    ensures Untouched(a, c, k, now, used)
  {
  }

  lemma NeighborLearns(t: Table, nb: Addr, seqNum: u32, life: int, k: Addr, now: int)
    ensures var t' := NeighborTable(t, nb, seqNum, life);
            if k == nb then RouteIs(t', k, nb, 1, seqNum, life) else Untouched(t, t', k, now, false)
  {
  }

  lemma RouteLearns(t: Table, dst: Addr, seqNum: u32, hop: int, nhop: Addr, life: int, keep: bool, k: Addr,
                    now: int)
    ensures var t' := RouteTable(t, dst, seqNum, hop, nhop, life, keep);
            if k == dst && Fresh(t, dst, seqNum, hop)
            then RouteIs(t', k, nhop, U8(hop), seqNum,
                         if keep && IsActive(t, dst) && t[dst].life > life then t[dst].life else life)
            else Untouched(t, t', k, now, false)
  {
  }

  /** The entry for k after the neighbour and the route. */
  lemma BothLearnt(
    t: Table, from: Addr, s: u32, dst: Addr, seqNum: u32, hop: int, life: int, keep: bool, now: int, k: Addr)
    ensures var t1 := NeighborTable(t, from, s, now + NEIGHBOR_LIFE);
            var t2 := if dst != from then RouteTable(t1, dst, seqNum, hop, from, life, keep) else t1;
            if k == from then RouteIs(t2, k, from, 1, s, now + 4000)
            else if k == dst && Fresh(t, dst, seqNum, hop) then
              RouteIs(t2, k, from, U8(hop), seqNum,
                      if keep && IsActive(t, dst) && t[dst].life > life then t[dst].life else life)
            else Untouched(t, t2, k, now, false)
  {
    var t1 := NeighborTable(t, from, s, now + NEIGHBOR_LIFE);
    NeighborLearns(t, from, s, now + NEIGHBOR_LIFE, k, now);
    NeighborLearns(t, from, s, now + NEIGHBOR_LIFE, dst, now);
    RouteLearns(t1, dst, seqNum, hop, from, life, keep, k, now);
    hide NeighborTable, RouteTable;
  }

  lemma UnicastTable(n: Node, toward: Addr, m: Rrep, now: int, k: Addr)
    ensures Untouched(n.table, Unicast(n, toward, m, now).table, k, now, k == toward)
  {
    hide Unicast;
    UnicastIs(n, toward, m, now);
  }

  lemma LearnsRrep(n: Node, from: Addr, ttl: int, m: Rrep, env: Env, k: Addr)
    requires from != n.ip
    ensures Untouched(LearntRrep(n, from, m, env.now), Receive(n, from, ttl, RrepMsg(m), env).table, k, env.now,
                      !n.reboot && m.src != n.ip && m.src != 0 && k == m.src)
  {
    hide RecvRREP, Unicast, NeighborTable, RouteTable, Answers, RepairRerr;
    if !n.reboot {
      RecvRREPIs(n, from, m, env.now);
      var (n1, m1, send) := RecvRREP(n, from, m, env.now);
      UnicastTable(n1, m.src, m1, env.now, k);
    }
  }

  lemma LearntRrepIs(n: Node, from: Addr, m: Rrep, now: int, k: Addr)
    ensures var t, t' := n.table, LearntRrep(n, from, m, now);
            if k == from then RouteIs(t', k, from, 1, if m.dest == from then m.destSeq else 0, now + 4000)
            else if k == m.dest && Fresh(t, k, m.destSeq, m.hop + 1)
            then RouteIs(t', k, from, U8(m.hop + 1), m.destSeq, now + m.life)
            else Untouched(t, t', k, now, false)
  {
    hide NeighborTable, RouteTable;
    BothLearnt(n.table, from, if m.dest == from then m.destSeq else 0, m.dest, m.destSeq, m.hop + 1, now + m.life,
               false, now, k);
  }

  /**
   What a received RREP does to the entry for k: its sender becomes a neighbour for four seconds, its
   destination gets the route for the lifetime it names if that route is fresh, and nothing else
   changes but that the route a running node relays the RREP over lives three seconds more.
   */
  lemma {:induction false} RrepTeaches(n: Node, from: Addr, ttl: int, m: Rrep, env: Env, k: Addr)
    requires from != n.ip
    ensures var t, t' := n.table, Receive(n, from, ttl, RrepMsg(m), env).table;
            var used := !n.reboot && m.src != n.ip && m.src != 0 && k == m.src;
            if k == from then LeadsTo(t', k, from, 1, if m.dest == from then m.destSeq else 0, env.now + 4000)
            else if k == m.dest && Fresh(t, k, m.destSeq, m.hop + 1) then
              LeadsTo(t', k, from, U8(m.hop + 1), m.destSeq,
                      if used && 0 < m.life < 3000 then env.now + 3000 else env.now + m.life)
            else Untouched(t, t', k, env.now, used)
  {
    hide Receive, LearntRrep, Untouched, LeadsTo, Fresh;
    var t1, t' := LearntRrep(n, from, m, env.now), Receive(n, from, ttl, RrepMsg(m), env).table;
    var used := !n.reboot && m.src != n.ip && m.src != 0 && k == m.src;
    LearntRrepIs(n, from, m, env.now, k);
    LearnsRrep(n, from, ttl, m, env, k);
    if k == from {
      RouteLeads(t1, t', k, from, 1, if m.dest == from then m.destSeq else 0, env.now + 4000, env.now, used);
    } else if k == m.dest && Fresh(n.table, k, m.destSeq, m.hop + 1) {
      RouteLeads(t1, t', k, from, U8(m.hop + 1), m.destSeq, env.now + m.life, env.now, used);
    } else {
      UntouchedTrans(n.table, t1, t', k, env.now, used);
    }
  }

  // ---- RREQ ----

  /** A reverse route lives 52.5 seconds less one second for each hop. */
  function ReverseEnd(t: Table, m: Rreq, now: int): int {
    var hops := if m.src in t then U8(m.hop + 1) else m.hop + 1;
    var end := now + 52500 - 1000 * hops;
    if IsActive(t, m.src) && t[m.src].life > end then t[m.src].life else end
  }

  lemma LearntRreqIs(n: Node, from: Addr, m: Rreq, now: int, k: Addr)
    ensures var t, t' := n.table, LearntRreq(n, from, m, now);
            if k == from then RouteIs(t', k, from, 1, if m.src == from then m.srcSeq else 0, now + 4000)
            else if k == m.src && Fresh(t, k, m.srcSeq, m.hop + 1)
            then RouteIs(t', k, from, U8(m.hop + 1), m.srcSeq, ReverseEnd(t, m, now))
            else Untouched(t, t', k, now, false)
  {
    hide NeighborTable, RouteTable;
    var s := if m.src == from then m.srcSeq else 0;
    var t1 := NeighborTable(n.table, from, s, now + NEIGHBOR_LIFE);
    NeighborLearns(n.table, from, s, now + NEIGHBOR_LIFE, m.src, now);
    BothLearnt(n.table, from, s, m.src, m.srcSeq, m.hop + 1, ReverseNew(t1, m, now), true, now, k);
  }

  /** Does a node that has learnt t answer the RREQ itself? */
  predicate Answered(n: Node, m: Rreq, t: Table) {
    !n.reboot && !Ignored(n, m) && (m.dest == n.ip || FindValid(t, m.dest, m.destSeq))
  }

  lemma AnswerTable(n: Node, from: Addr, m: Rreq, env: Env, k: Addr)
    ensures Untouched(n.table, AnswerRREQ(n, from, m, env).table, k, env.now,
                      k == m.src || (m.g && m.dest != n.ip && k == m.dest))
  {
    hide CreateRREP, CreateGRREP, Unicast, SameButPrec, FindActive;
    CreatedTable(n, from, m, env, k);
    var (n1, rrep) := CreateRREP(n, from, m, env);
    UnicastTable(n1, m.src, rrep, env.now, k);
    var n2 := Unicast(n1, m.src, rrep, env.now);
    UnicastEffect(n1, m.src, rrep, env.now);
    UnicastTable(n2, m.dest, CreateGRREP(n2, m, env), env.now, k);
    CreateRREPCores(n, from, m, env);
    UntouchedTrans(n.table, n1.table, n2.table, k, env.now, k == m.src);
    UntouchedTwice(n.table, n2.table, Unicast(n2, m.dest, CreateGRREP(n2, m, env), env.now).table, k, env.now,
                   k == m.src, k == m.dest);
  }

  lemma UntouchedTwice(a: Table, b: Table, c: Table, k: Addr, now: int, used: bool, used': bool)
    requires Untouched(a, b, k, now, used) && Untouched(b, c, k, now, used')
    ensures Untouched(a, c, k, now, used || used')
  {
  }

  lemma CreatedTable(n: Node, from: Addr, m: Rreq, env: Env, k: Addr)
    ensures Untouched(n.table, CreateRREP(n, from, m, env).0.table, k, env.now, false)
  {
  }

  lemma LearnsRreq(n: Node, from: Addr, ttl: int, m: Rreq, env: Env, k: Addr)
    requires from != n.ip && (n.reboot || !Ignored(n, m))
    ensures var t := LearntRreq(n, from, m, env.now);
            Untouched(t, Receive(n, from, ttl, RreqMsg(m), env).table, k, env.now,
                      Answered(n, m, t) && (k == m.src || (m.g && m.dest != n.ip && k == m.dest)))
  {
    hide RecvRREQ, AnswerRREQ, NeighborTable, RouteTable, Answers, RepairRerr;
    if !n.reboot {
      RecvRREQIs(n, from, m, env.now);
      var (n1, m1, v) := RecvRREQ(n, from, m, env.now);
      AnswerTable(n1, from, m, env, k);
    }
  }

  /**
   What a RREQ that is not ignored does to the entry for k: its sender becomes a neighbour for four
   seconds, its originator gets the reverse route if that one is fresh, and nothing else changes but
   that the routes an answer is sent over live three seconds more.
   */
  lemma {:induction false} RreqTeaches(n: Node, from: Addr, ttl: int, m: Rreq, env: Env, k: Addr)
    requires from != n.ip && (n.reboot || !Ignored(n, m))
    ensures var t, t' := n.table, Receive(n, from, ttl, RreqMsg(m), env).table;
            var used := Answered(n, m, LearntRreq(n, from, m, env.now))
                        && (k == m.src || (m.g && m.dest != n.ip && k == m.dest));
            var end := ReverseEnd(t, m, env.now);
            if k == from then LeadsTo(t', k, from, 1, if m.src == from then m.srcSeq else 0, env.now + 4000)
            else if k == m.src && Fresh(t, k, m.srcSeq, m.hop + 1) then
              LeadsTo(t', k, from, U8(m.hop + 1), m.srcSeq,
                      if used && env.now < end < env.now + 3000 then env.now + 3000 else end)
            else Untouched(t, t', k, env.now, used)
  {
    hide Receive, LearntRreq, Untouched, LeadsTo, Fresh, Answered, ReverseEnd;
    var t1, t' := LearntRreq(n, from, m, env.now), Receive(n, from, ttl, RreqMsg(m), env).table;
    var used := Answered(n, m, t1) && (k == m.src || (m.g && m.dest != n.ip && k == m.dest));
    LearntRreqIs(n, from, m, env.now, k);
    LearnsRreq(n, from, ttl, m, env, k);
    if k == from {
      RouteLeads(t1, t', k, from, 1, if m.src == from then m.srcSeq else 0, env.now + 4000, env.now, used);
    } else if k == m.src && Fresh(n.table, k, m.srcSeq, m.hop + 1) {
      RouteLeads(t1, t', k, from, U8(m.hop + 1), m.srcSeq, ReverseEnd(n.table, m, env.now), env.now, used);
    } else {
      UntouchedTrans(n.table, t1, t', k, env.now, used);
    }
  }

  // ---- kernel routes, repairs and searches ----

  /** The kernel's routes once a node has heard from a neighbour, which tells it of a route to dst. */
  function KernelAfter(n: Node, from: Addr, dst: Addr, seqNum: u32, hop: int): map<Addr, Addr> {
    var fib := if IsActive(n.table, from) then n.fib else n.fib[from := from];
    if dst != from && Fresh(n.table, dst, seqNum, hop)
       && (IsActive(n.table, dst) ==> hop < n.table[dst].hop || n.table[dst].next != from)
    then fib[dst := from] else fib
  }

  /** d, if the search for it that ends next is a local repair. */
  function Repaired(n: Node, d: Addr): set<Addr> {
    if Searches(n.tq.list, d) != [] && Searches(n.tq.list, d)[0].LrTimer? then {d} else {}
  }

  function OneLess<T>(l: seq<T>): seq<T> {
    if l == [] then [] else l[1..]
  }

  /** n' is n after news of from and dst: their kernel routes, and one search for each of them is over. */
  ghost predicate Told(n: Node, n': Node, from: Addr, dst: Addr, seqNum: u32, hop: int) {
    && n'.fib == KernelAfter(n, from, dst, seqNum, hop)
    && n'.repair == n.repair - Repaired(n, from) - Repaired(n, dst)
    && forall d :: Searches(n'.tq.list, d)
                   == if d == from || d == dst then OneLess(Searches(n.tq.list, d)) else Searches(n.tq.list, d)
  }

  lemma SearchEnds(q: seq<Timer<Job>>, d: Addr)
    ensures Searches(RemoveFirst(q, DiscoveryJob(d)), d) == OneLess(Searches(q, d))
  {
    hide First, RemoveFirst, Searches;
    SearchesFirst(q, d);
    RemoveIs(q, d);
    var i := First(q, DiscoveryJob(d));
    if i < |q| {
      SearchesAt(q, i, d);
    }
  }

  lemma SearchesAt(q: seq<Timer<Job>>, i: nat, d: Addr)
    requires i < |q| && DiscoveryFor(d, q[i].what) && forall j :: 0 <= j < i ==> !DiscoveryFor(d, q[j].what)
    ensures Searches(q[..i] + q[i + 1..], d) == OneLess(Searches(q, d))
  {
    assert q == q[..i] + ([q[i]] + q[i + 1..]);
    SearchesConcat(q[..i], [q[i]] + q[i + 1..], d);
    SearchesConcat([q[i]], q[i + 1..], d);
    SearchesConcat(q[..i], q[i + 1..], d);
    SearchesBefore(q, i, d);
    assert Searches([q[i]], d) == [q[i].what.kind];
    hide Searches;
  }

  lemma RemoveIs(q: seq<Timer<Job>>, d: Addr)
    ensures var i := First(q, DiscoveryJob(d));
            RemoveFirst(q, DiscoveryJob(d)) == if i < |q| then q[..i] + q[i + 1..] else q
  {
    hide First, DiscoveryJob;
  }

  lemma {:induction false} SearchesBefore(q: seq<Timer<Job>>, i: nat, d: Addr)
    requires i <= |q| && forall j :: 0 <= j < i ==> !DiscoveryFor(d, q[j].what)
    ensures Searches(q[..i], d) == []
  {
    if i > 0 {
      assert q[..i][1..] == q[1..][..i - 1];
      SearchesBefore(q[1..], i - 1, d);
    }
  }

  lemma NeighborTells(n: Node, nb: Addr, src: Addr, seqNum: u32, life: int, now: int)
    ensures Told(n, NeighborUpdate(n, nb, src, seqNum, life, now), nb, nb, 0, 0)
  {
    hide Searches, First, Insert, RemoveFirst, NeighborUpdate;
    var n' := NeighborUpdate(n, nb, src, seqNum, life, now);
    NeighborKernel(n, nb, src, seqNum, life, now);
    NeighborTimers(n, nb, src, seqNum, life, now);
    SearchEnds(n.tq.list, nb);
    var q1 := RemoveFirst(n.tq.list, DiscoveryJob(nb));
    var t := Timer(now + NEIGHBOR_LIFE, Job(ActiveRouteTimer, nb));
    forall d ensures Searches(n'.tq.list, d)
                     == if d == nb then OneLess(Searches(n.tq.list, d)) else Searches(n.tq.list, d)
    {
      if d != nb {
        NeighborKeepsSearches(n, nb, src, seqNum, life, now, d);
      } else {
        SearchesRemove(q1, ActiveRouteJob(nb), d);
        SearchesInsert(q1, t, d);
        SearchesInsert(RemoveFirst(q1, ActiveRouteJob(nb)), t, d);
      }
    }
  }

  lemma NeighborKernel(n: Node, nb: Addr, src: Addr, seqNum: u32, life: int, now: int)
    ensures var n' := NeighborUpdate(n, nb, src, seqNum, life, now);
            n'.fib == KernelAfter(n, nb, nb, 0, 0) && n'.repair == n.repair - Repaired(n, nb) - Repaired(n, nb)
  {
    hide First, RemoveArmed, Searches, NeighborTable;
    SearchesFirst(n.tq.list, nb);
  }

  lemma RouteTells(n: Node, dst: Addr, seqNum: u32, hop: int, nhop: Addr, life: int, keep: bool, now: int)
    ensures var n' := RouteUpdate(n, dst, seqNum, hop, nhop, life, keep, now);
            && n'.fib == (if Fresh(n.table, dst, seqNum, hop)
                             && (IsActive(n.table, dst) ==> hop < n.table[dst].hop || n.table[dst].next != nhop)
                          then n.fib[dst := nhop] else n.fib)
            && n'.repair == n.repair - Repaired(n, dst)
            && n'.tq.list == RemoveFirst(n.tq.list, DiscoveryJob(dst))
  {
    hide First, Searches, RouteTable;
    SearchesFirst(n.tq.list, dst);
  }

  /** Both updates together. */
  lemma BothTell(n: Node, n1: Node, n2: Node, n': Node, from: Addr, src: Addr, s: u32,
                 dst: Addr, seqNum: u32, hop: int, life: int, keep: bool, now: int)
    requires n1 == NeighborUpdate(n, from, src, s, now + NEIGHBOR_LIFE, now)
    requires n2.table == n1.table && n2.fib == n1.fib && n2.tq == n1.tq && n2.repair == n1.repair
    requires n' == if dst != from then RouteUpdate(n2, dst, seqNum, hop, from, life, keep, now) else n2
    ensures Told(n, n', from, dst, seqNum, hop)
  {
    hide NeighborUpdate, RouteUpdate, NeighborTable, Searches, RemoveFirst;
    NeighborTells(n, from, src, s, now + NEIGHBOR_LIFE, now);
    NeighborUpdateEffect(n, from, src, s, now + NEIGHBOR_LIFE, now);
    NeighborLearns(n.table, from, s, now + NEIGHBOR_LIFE, dst, now);
    if dst != from {
      RouteTells(n2, dst, seqNum, hop, from, life, keep, now);
      SearchEnds(n2.tq.list, dst);
      forall d ensures Searches(n'.tq.list, d)
                       == if d == from || d == dst then OneLess(Searches(n.tq.list, d)) else Searches(n.tq.list, d)
      {
        if d != dst {
          SearchesRemove(n2.tq.list, DiscoveryJob(dst), d);
        }
      }
    }
  }

  /** A RREQ that is not ignored tells of its sender and of its originator. */
  lemma {:induction false} RreqTells(n: Node, from: Addr, ttl: int, m: Rreq, env: Env)
    requires !n.reboot && from != n.ip && !Ignored(n, m)
    ensures Told(n, Receive(n, from, ttl, RreqMsg(m), env), from, m.src, m.srcSeq, m.hop + 1)
  {
    hide NeighborUpdate, RouteUpdate, Told, AnswerRREQ;
    var s := if m.src == from then m.srcSeq else 0;
    var n1 := NeighborUpdate(n, from, m.src, s, env.now + NEIGHBOR_LIFE, env.now);
    var n2 := n1.(fw := n1.fw[(m.src, m.id) := env.now + PATH_TRAVERSAL_TIME],
                  trace := n1.trace + [Handled(m.src, m.id, env.now)]);
    var n3 := if m.src != from then ReverseRouteUpdate(n2, from, m, env.now) else n2;
    NeighborUpdateEffect(n, from, m.src, s, env.now + NEIGHBOR_LIFE, env.now);
    BothTell(n, n1, n2, n3, from, m.src, s, m.src, m.srcSeq, m.hop + 1, ReverseNew(n2.table, m, env.now), true,
             env.now);
    var (n4, m4, v) := RecvRREQ(n, from, m, env.now);
    AnswerFrame(n4, from, m, env);
    SameTold(n, n3, Receive(n, from, ttl, RreqMsg(m), env), from, m.src, m.srcSeq, m.hop + 1);
  }

  lemma AnswerFrame(n: Node, from: Addr, m: Rreq, env: Env)
    ensures var n' := AnswerRREQ(n, from, m, env);
            n'.fib == n.fib && n'.repair == n.repair && n'.tq == n.tq && n'.ip == n.ip && n'.reboot == n.reboot
  {
    hide CreateRREP, CreateGRREP, Unicast;
    CreateRREPCores(n, from, m, env);
    var (n1, rrep) := CreateRREP(n, from, m, env);
    UnicastEffect(n1, m.src, rrep, env.now);
    var n2 := Unicast(n1, m.src, rrep, env.now);
    UnicastEffect(n2, m.dest, CreateGRREP(n2, m, env), env.now);
  }

  lemma SameTold(n: Node, n1: Node, n2: Node, from: Addr, dst: Addr, seqNum: u32, hop: int)
    requires Told(n, n1, from, dst, seqNum, hop) && n2.fib == n1.fib && n2.repair == n1.repair && n2.tq == n1.tq
    ensures Told(n, n2, from, dst, seqNum, hop)
  {
  }

  /** A RREP tells of its sender and of its destination. */
  lemma {:induction false} RrepTells(n: Node, from: Addr, ttl: int, m: Rrep, env: Env)
    requires !n.reboot && from != n.ip
    ensures Told(n, Receive(n, from, ttl, RrepMsg(m), env), from, m.dest, m.destSeq, m.hop + 1)
  {
    hide NeighborUpdate, RouteUpdate, Told, Unicast, RecvRREP;
    var s := if m.dest == from then m.destSeq else 0;
    var n1 := NeighborUpdate(n, from, m.src, s, env.now + NEIGHBOR_LIFE, env.now);
    var n2 := if m.dest != from then ForwardRouteUpdate(n1, from, m, env.now) else n1;
    BothTell(n, n1, n1, n2, from, m.src, s, m.dest, m.destSeq, m.hop + 1, env.now + m.life, false, env.now);
    RecvRREPShape(n, from, m, env.now);
    var (n3, m3, send) := RecvRREP(n, from, m, env.now);
    UnicastEffect(n3, m.src, m3, env.now);
    SameTold(n, n2, Receive(n, from, ttl, RrepMsg(m), env), from, m.dest, m.destSeq, m.hop + 1);
  }

  // ---- during reboot ----

  /** The own number after a RREQ: at least what the network believes it to be. */
  function OwnNumber(n: Node, msg: Msg): u32 {
    if msg.RreqMsg? && msg.rreq.dest == n.ip && msg.rreq.destSeq > n.localSeq then msg.rreq.destSeq else n.localSeq
  }

  /** A rebooting node learns from messages but keeps silent: no packet, no reply, no timer, no flood remembered. */
  lemma {:induction false} RebootIsSilent(n: Node, from: Addr, ttl: int, msg: Msg, env: Env)
    requires n.reboot && from != n.ip
    ensures var n' := Receive(n, from, ttl, msg, env);
            && n' == n.(table := n'.table, fib := n'.fib, repair := n'.repair, localSeq := OwnNumber(n, msg))
            && (!msg.RerrMsg? ==> n'.fib == n.fib && n'.repair == n.repair)
  {
    hide NeighborTable, RouteTable, UpdateInvalid, UpdateValid;
    if msg.RerrMsg? {
      var t := UpdateInvalid(NeighborTable(n.table, from, 0, env.now + NEIGHBOR_LIFE), msg.rerr.dests);
      UpdateValidFrame(n.(table := t), msg.rerr.dests, from, env.now);
    }
  }
}
