/**
 What a running node does with a RREQ or RREP it receives, packet by packet: what it sends, what it
 tells the Local Agent, and which precursors it notes.
 */
module Messages {
  import opened Base
  import opened Params
  import opened Timers
  import opened Node
  import opened Steps
  import opened Effects
  import opened Lookups

  // ---- what is left of a local repair ----

  /** The kinds of the RREQ and local repair timers of d, in queue order. */
  function Searches(q: seq<Timer<Job>>, d: Addr): seq<Kind> {
    if q == [] then [] else (if DiscoveryFor(d, q[0].what) then [q[0].what.kind] else []) + Searches(q[1..], d)
  }

  /** The RERR with the N flag that follows a local repair whose route is longer than the lost one. */
  function RepairRerr(q: seq<Timer<Job>>, t: Table, d: Addr): seq<Out> {
    if Searches(q, d) != [] && Searches(q, d)[0].LrTimer?
       && d in t && t[d].hop > t[d].lastHop && t[d].prec != []
    then [Out(if |t[d].prec| == 1 then Some(t[d].prec[0]) else None, 1,
              RerrMsg(Rerr(true, 1, [Unreach(d, t[d].seqNum)])))]
    else []
  }

  lemma SearchesCons(t: Timer<Job>, q: seq<Timer<Job>>, d: Addr)
    ensures Searches([], d) == []
    ensures Searches([t] + q, d) == (if DiscoveryFor(d, t.what) then [t.what.kind] else []) + Searches(q, d)
  {
  }

  lemma {:induction false} SearchesConcat(a: seq<Timer<Job>>, b: seq<Timer<Job>>, d: Addr)
    ensures Searches(a + b, d) == Searches(a, d) + Searches(b, d)
  {
    hide Searches, DiscoveryFor;
    if a == [] {
      assert a + b == b;
      SearchesCons(Timer(0, Job(RreqTimer, 0)), [], d);
    } else {
      SearchesCons(a[0], a[1..], d);
      SearchesCons(a[0], a[1..] + b, d);
      assert a == [a[0]] + a[1..] && a + b == [a[0]] + (a[1..] + b);
      SearchesConcat(a[1..], b, d);
    }
  }

  lemma SearchesWithout(q: seq<Timer<Job>>, i: nat, d: Addr)
    requires i < |q| && !DiscoveryFor(d, q[i].what)
    ensures Searches(q[..i] + q[i + 1..], d) == Searches(q, d)
  {
    assert q == q[..i] + ([q[i]] + q[i + 1..]);
    SearchesConcat(q[..i], [q[i]] + q[i + 1..], d);
    SearchesConcat([q[i]], q[i + 1..], d);
    SearchesConcat(q[..i], q[i + 1..], d);
  }

  lemma SearchesInsert(q: seq<Timer<Job>>, t: Timer<Job>, d: Addr)
    requires !DiscoveryFor(d, t.what)
    ensures Searches(Insert(q, t), d) == Searches(q, d)
  {
    var i := Position(q, t.timeout);
    assert q == q[..i] + q[i..];
    SearchesConcat(q[..i], q[i..], d);
    SearchesConcat(q[..i] + [t], q[i..], d);
    SearchesConcat(q[..i], [t], d);
  }

  lemma SearchesRemove(q: seq<Timer<Job>>, p: Job -> bool, d: Addr)
    requires forall j :: p(j) ==> !DiscoveryFor(d, j)
    ensures Searches(RemoveFirst(q, p), d) == Searches(q, d)
  {
    var i := First(q, p);
    if i < |q| {
      SearchesWithout(q, i, d);
    }
  }

  lemma {:induction false} SearchesFirst(q: seq<Timer<Job>>, d: Addr)
    ensures var i := First(q, DiscoveryJob(d));
            && (i < |q| <==> Searches(q, d) != [])
            && (i < |q| ==> q[i].what.kind == Searches(q, d)[0])
  {
    if q != [] && !DiscoveryFor(d, q[0].what) {
      SearchesFirst(q[1..], d);
    }
  }

  lemma NeighborTimers(n: Node, nb: Addr, src: Addr, seqNum: u32, life: int, now: int)
    ensures var q1 := RemoveFirst(n.tq.list, DiscoveryJob(nb));
            var q2 := if First(q1, ActiveRouteJob(nb)) < |q1| then RemoveFirst(q1, ActiveRouteJob(nb)) else q1;
            NeighborUpdate(n, nb, src, seqNum, life, now).tq.list
            == if q1 != q2 || src == 0 then Insert(q2, Timer(now + NEIGHBOR_LIFE, Job(ActiveRouteTimer, nb))) else q2
  {
    hide NeighborTable, Insert, First;
  }

  /** A neighbour update leaves the searches for other nodes alone. */
  lemma NeighborKeepsSearches(n: Node, nb: Addr, src: Addr, seqNum: u32, life: int, now: int, d: Addr)
    requires d != nb
    ensures Searches(NeighborUpdate(n, nb, src, seqNum, life, now).tq.list, d) == Searches(n.tq.list, d)
  {
    hide Searches, First, Insert, RemoveFirst, NeighborUpdate;
    NeighborTimers(n, nb, src, seqNum, life, now);
    var q1 := RemoveFirst(n.tq.list, DiscoveryJob(nb));
    SearchesRemove(n.tq.list, DiscoveryJob(nb), d);
    SearchesRemove(q1, ActiveRouteJob(nb), d);
    var t := Timer(now + NEIGHBOR_LIFE, Job(ActiveRouteTimer, nb));
    SearchesInsert(q1, t, d);
    SearchesInsert(RemoveFirst(q1, ActiveRouteJob(nb)), t, d);
  }

  // ---- answers to the Local Agent ----

  /** Destination and result of every reply. */
  function Answers(trace: seq<Trace>): seq<(Addr, bool)> {
    if trace == [] then []
    else Answers(trace[..|trace| - 1]) + match trace[|trace| - 1]
                                         case Reply(d, found, _) => [(d, found)]
                                         case _ => []
  }

  lemma AnswersAppend(trace: seq<Trace>, e: Trace)
    ensures Answers(trace + [e]) == Answers(trace) + if e.Reply? then [(e.dst, e.found)] else []
  {
  }

  lemma NeighborAnswers(n: Node, nb: Addr, src: Addr, seqNum: u32, life: int, now: int)
    ensures Answers(NeighborUpdate(n, nb, src, seqNum, life, now).trace) == Answers(n.trace) + [(nb, true)]
  {
    hide Answers;
    var fib := if IsActive(n.table, nb) then n.fib else n.fib[nb := nb];
    AnswersAppend(n.trace, Reply(nb, true, nb in fib));
  }

  lemma RouteUpdateSends(n: Node, dst: Addr, seqNum: u32, hop: int, nhop: Addr, life: int, keep: bool, now: int)
    ensures var n' := RouteUpdate(n, dst, seqNum, hop, nhop, life, keep, now);
            && n'.outbox == n.outbox + RepairRerr(n.tq.list, n'.table, dst)
            && Answers(n'.trace) == Answers(n.trace) + [(dst, true)]
  {
    hide Answers, RouteTable, Rewrites, RemoveArmed, First, Searches;
    var t := RouteTable(n.table, dst, seqNum, hop, nhop, life, keep);
    var fib := if Rewrites(n.table, dst, seqNum, hop, nhop) then n.fib[dst := nhop] else n.fib;
    SearchesFirst(n.tq.list, dst);
    AnswersAppend(n.trace, Reply(dst, true, dst in fib));
  }

  // ---- RREQ ----

  /** The table once the sender and the originator of a RREQ are learnt. */
  function LearntRreq(n: Node, from: Addr, m: Rreq, now: int): Table {
    var t1 := NeighborTable(n.table, from, if m.src == from then m.srcSeq else 0, now + NEIGHBOR_LIFE);
    if m.src != from then RouteTable(t1, m.src, m.srcSeq, m.hop + 1, from, ReverseNew(t1, m, now), true) else t1
  }

  predicate Ignored(n: Node, m: Rreq) {
    m.src == n.ip || (m.src, m.id) in n.fw
  }

  /** What a node that has learnt t says to a RREQ it handles. */
  function RreqReaction(n: Node, ttl: int, m: Rreq, t: Table, env: Env): seq<Out> {
    if m.dest == n.ip then
      if FindActive(t, m.src, env.now) && t[m.src].next != 0 then
        var seqNum := if m.destSeq > n.localSeq then m.destSeq else n.localSeq;
        [Out(Some(t[m.src].next), -1, RrepMsg(Rrep(0, n.ip, seqNum, m.src, MY_ROUTE_TIMEOUT)))]
      else []
    else if FindValid(t, m.dest, m.destSeq) then
      var n1 := n.(table := t);
      SentToward(n1, m.src, env.now, AnswerTo(n1, m, env))
      + if m.g then SentToward(n1, m.dest, env.now, GratuitousTo(n1, m, env)) else []
    else if 1 < ttl then
      var seqNum := if m.dest in t && t[m.dest].seqNum > m.destSeq then t[m.dest].seqNum else m.destSeq;
      [Out(None, ttl - 1, RreqMsg(m.(hop := U8(m.hop + 1), destSeq := seqNum)))]
    else []
  }

  /** recvRREQ on everything that RreqSent needs. */
  lemma RecvRREQIs(n: Node, from: Addr, m: Rreq, now: int)
    requires !Ignored(n, m)
    ensures var (n1, m1, v) := RecvRREQ(n, from, m, now);
            var t := LearntRreq(n, from, m, now);
            && n1.table == t && n1.ip == n.ip
            && n1.outbox == n.outbox + (if m.src != from then RepairRerr(n.tq.list, t, m.src) else [])
            && Answers(n1.trace) == Answers(n.trace) + [(from, true)] + (if m.src != from then [(m.src, true)] else [])
            && n1.localSeq == (if m.dest == n.ip && m.destSeq > n.localSeq then m.destSeq else n.localSeq)
            && (v.GenRrep? <==> m.dest == n.ip || FindValid(t, m.dest, m.destSeq))
            && (v.FwdRreq? ==> m1 == m.(destSeq := RaisedDestSeq(t, m), hop := U8(m.hop + 1))) && !v.Ignore?
  {
    hide NeighborUpdate, RouteUpdate, NeighborTable, RouteTable, Answers, Searches, RepairRerr;
    var s := if m.src == from then m.srcSeq else 0;
    var life := now + NEIGHBOR_LIFE;
    RecvRREQTable(n, from, m, now);
    NeighborUpdateEffect(n, from, m.src, s, life, now);
    NeighborAnswers(n, from, m.src, s, life, now);
    var n1 := NeighborUpdate(n, from, m.src, s, life, now);
    var n2 := n1.(fw := n1.fw[(m.src, m.id) := now + PATH_TRAVERSAL_TIME],
                  trace := n1.trace + [Handled(m.src, m.id, now)]);
    AnswersAppend(n1.trace, Handled(m.src, m.id, now));
    if m.src != from {
      NeighborKeepsSearches(n, from, m.src, s, life, now, m.src);
      SameRepairRerr(n.tq.list, n2.tq.list, LearntRreq(n, from, m, now), m.src);
      RouteUpdateEffect(n2, m.src, m.srcSeq, m.hop + 1, from, ReverseNew(n2.table, m, now), true, now);
      RouteUpdateSends(n2, m.src, m.srcSeq, m.hop + 1, from, ReverseNew(n2.table, m, now), true, now);
    }
  }

  lemma RepairRerrIs(q: seq<Timer<Job>>, t: Table, d: Addr)
    ensures forall out :: out in RepairRerr(q, t, d) ==> out.msg.RerrMsg?
  {
  }

  lemma SameRepairRerr(q: seq<Timer<Job>>, q': seq<Timer<Job>>, t: Table, d: Addr)
    requires Searches(q', d) == Searches(q, d)
    ensures RepairRerr(q', t, d) == RepairRerr(q, t, d)
  {
  }

  lemma OwnAnswerSends(n: Node, from: Addr, m: Rreq, env: Env)
    requires m.dest == n.ip
    ensures var n' := AnswerRREQ(n, from, m, env);
            && n'.outbox == n.outbox + SentToward(n, m.src, env.now, Rrep(0, n.ip, n.localSeq, m.src, MY_ROUTE_TIMEOUT))
            && n'.trace == n.trace && n'.localSeq == n.localSeq
  {
    hide Unicast, SentToward;
    UnicastEffect(n, m.src, Rrep(0, n.ip, n.localSeq, m.src, MY_ROUTE_TIMEOUT), env.now);
    UnicastIs(n, m.src, Rrep(0, n.ip, n.localSeq, m.src, MY_ROUTE_TIMEOUT), env.now);
  }

  lemma AnswerKeepsTrace(n: Node, from: Addr, m: Rreq, env: Env)
    ensures var n' := AnswerRREQ(n, from, m, env); n'.trace == n.trace && n'.localSeq == n.localSeq
  {
    hide CreateRREP, CreateGRREP, Unicast;
    CreateRREPCores(n, from, m, env);
    var (n1, rrep) := CreateRREP(n, from, m, env);
    UnicastEffect(n1, m.src, rrep, env.now);
    var n2 := Unicast(n1, m.src, rrep, env.now);
    UnicastEffect(n2, m.dest, CreateGRREP(n2, m, env), env.now);
  }

  /**
   Exactly what a running node sends and answers when it hears a RREQ of another node: a flood it has
   not handled is answered by its destination and by nodes with a route that is new enough, and is
   otherwise rebroadcast one hop further until its ttl is used up.
   */
  lemma {:induction false} RreqSent(n: Node, from: Addr, ttl: int, m: Rreq, env: Env)
    requires !n.reboot && from != n.ip && !Ignored(n, m)
    ensures var n', t := Receive(n, from, ttl, RreqMsg(m), env), LearntRreq(n, from, m, env.now);
            && n'.outbox == n.outbox + (if m.src != from then RepairRerr(n.tq.list, t, m.src) else [])
                            + RreqReaction(n, ttl, m, t, env)
            && Answers(n'.trace) == Answers(n.trace) + [(from, true)] + (if m.src != from then [(m.src, true)] else [])
            && n'.localSeq == if m.dest == n.ip && m.destSeq > n.localSeq then m.destSeq else n.localSeq
  {
    hide RecvRREQ, AnswerRREQ, Answers, RepairRerr, LearntRreq, SentToward;
    RecvRREQIs(n, from, m, env.now);
    var (n1, m1, v) := RecvRREQ(n, from, m, env.now);
    AnswerKeepsTrace(n1, from, m, env);
    if m.dest == n.ip {
      OwnAnswerSends(n1, from, m, env);
      OverSameTable(n1, n.(table := n1.table), m, env);
      SentTowardIs(n1, m.src, env.now, Rrep(0, n.ip, n1.localSeq, m.src, MY_ROUTE_TIMEOUT));
    } else {
      AnswerSends(n1, from, m, env);
      OverSameTable(n1, n.(table := n1.table), m, env);
    }
  }

  lemma SentTowardIs(n: Node, d: Addr, now: int, m: Rrep)
    ensures SentToward(n, d, now, m)
         == if FindActive(n.table, d, now) && n.table[d].next != 0 then [Out(Some(n.table[d].next), -1, RrepMsg(m))]
            else []
  {
  }

  lemma OverSameTable(n: Node, n': Node, m: Rreq, env: Env)
    requires n.table == n'.table
    ensures AnswerTo(n, m, env) == AnswerTo(n', m, env) && GratuitousTo(n, m, env) == GratuitousTo(n', m, env)
    ensures forall d, r :: SentToward(n, d, env.now, r) == SentToward(n', d, env.now, r)
  {
  }

  /** A RREQ that is ignored still refreshes its sender, unless it is the node's own. */
  lemma {:induction false} RreqIgnored(n: Node, from: Addr, ttl: int, m: Rreq, env: Env)
    requires !n.reboot && from != n.ip && Ignored(n, m)
    ensures var n' := Receive(n, from, ttl, RreqMsg(m), env);
            && n'.outbox == n.outbox && n'.localSeq == n.localSeq
            && if m.src == n.ip then n' == n
               else Answers(n'.trace) == Answers(n.trace) + [(from, true)]
                    && n'.table == NeighborTable(n.table, from, if m.src == from then m.srcSeq else 0,
                                                 env.now + NEIGHBOR_LIFE)
  {
    hide NeighborUpdate, ReverseRouteUpdate, Answers;
    var s := if m.src == from then m.srcSeq else 0;
    NeighborUpdateEffect(n, from, m.src, s, env.now + NEIGHBOR_LIFE, env.now);
    NeighborAnswers(n, from, m.src, s, env.now + NEIGHBOR_LIFE, env.now);
  }

  lemma FloodReaction(n: Node, ttl: int, m: Rreq, t: Table, env: Env)
    requires m.dest != n.ip && !FindValid(t, m.dest, m.destSeq)
    ensures var seqNum: u32 := if m.dest in t && t[m.dest].seqNum > m.destSeq then t[m.dest].seqNum else m.destSeq;
            RreqReaction(n, ttl, m, t, env)
            == if 1 < ttl
               then [Out(None, ttl - 1, RreqMsg(Rreq(m.g, U8(m.hop + 1), m.id, m.dest, seqNum, m.src, m.srcSeq)))]
               else []
  {
    hide SentToward, AnswerTo, GratuitousTo;
  }

  /**
   In particular the flood goes on: without a route to the destination that is new enough exactly one
   RREQ is sent if the received ttl is more than 1, and none otherwise.
   */
  lemma {:induction false} RreqGoesOn(n: Node, from: Addr, ttl: int, m: Rreq, env: Env) returns (rerrs: seq<Out>)
    requires !n.reboot && from != n.ip && m.src != n.ip && (m.src, m.id) !in n.fw && m.dest != n.ip
    requires var t := LearntRreq(n, from, m, env.now);
             m.dest in t && t[m.dest].flag.Active? ==> t[m.dest].seqNum < m.destSeq
    ensures forall out :: out in rerrs ==> out.msg.RerrMsg?
    ensures var t := LearntRreq(n, from, m, env.now);
            var seqNum: u32 := if m.dest in t && t[m.dest].seqNum > m.destSeq then t[m.dest].seqNum else m.destSeq;
            Receive(n, from, ttl, RreqMsg(m), env).outbox
            == n.outbox + rerrs
               + if 1 < ttl
                 then [Out(None, ttl - 1, RreqMsg(Rreq(m.g, U8(m.hop + 1), m.id, m.dest, seqNum, m.src, m.srcSeq)))]
                 else []
  {
    RreqSent(n, from, ttl, m, env);
    hide Receive, LearntRreq, RepairRerr, RreqReaction;
    RepairRerrIs(n.tq.list, LearntRreq(n, from, m, env.now), m.src);
    FloodReaction(n, ttl, m, LearntRreq(n, from, m, env.now), env);
    rerrs := if m.src != from then RepairRerr(n.tq.list, LearntRreq(n, from, m, env.now), m.src) else [];
  }

  // ---- RREP ----

  /** The table once the sender and the destination of a RREP are learnt. */
  function LearntRrep(n: Node, from: Addr, m: Rrep, now: int): Table {
    var t1 := NeighborTable(n.table, from, if m.dest == from then m.destSeq else 0, now + NEIGHBOR_LIFE);
    if m.dest != from then RouteTable(t1, m.dest, m.destSeq, m.hop + 1, from, now + m.life, false) else t1
  }

  lemma RecvRREPIs(n: Node, from: Addr, m: Rrep, now: int)
    ensures var (n1, m1, send) := RecvRREP(n, from, m, now);
            var t := LearntRrep(n, from, m, now);
            && SameButPrec(t, n1.table)
            && n1.outbox == n.outbox + (if m.dest != from then RepairRerr(n.tq.list, t, m.dest) else [])
            && Answers(n1.trace)
               == Answers(n.trace) + [(from, true)] + (if m.dest != from then [(m.dest, true)] else [])
            && (send <==> m.src != n.ip && m.src != 0) && (send ==> m1 == m.(hop := U8(m.hop + 1)))
            && n1.table == if send && FindActive(t, m.dest, now) && FindActive(t, m.src, now)
                           then t[m.dest := AddPrec(t[m.dest], t[m.src].next)] else t
  {
    hide NeighborUpdate, RouteUpdate, NeighborTable, RouteTable, Answers, Searches, RepairRerr, SameButPrec;
    var s := if m.dest == from then m.destSeq else 0;
    var life := now + NEIGHBOR_LIFE;
    NeighborUpdateEffect(n, from, m.src, s, life, now);
    NeighborAnswers(n, from, m.src, s, life, now);
    var n1 := NeighborUpdate(n, from, m.src, s, life, now);
    var t := LearntRrep(n, from, m, now);
    if m.dest != from {
      NeighborKeepsSearches(n, from, m.src, s, life, now, m.dest);
      SameRepairRerr(n.tq.list, n1.tq.list, t, m.dest);
      RouteUpdateEffect(n1, m.dest, m.destSeq, m.hop + 1, from, now + m.life, false, now);
      RouteUpdateSends(n1, m.dest, m.destSeq, m.hop + 1, from, now + m.life, false, now);
    }
    SameTable(t);
    if FindActive(t, m.dest, now) && FindActive(t, m.src, now) {
      AddsOnlyPrec(t, m.dest, t[m.src].next);
    }
  }

  /**
   Exactly what a running node sends and answers when it hears a RREP: one that is for another node is
   relayed one hop further over the route to its originator, if there is one.
   */
  lemma {:induction false} RrepSent(n: Node, from: Addr, ttl: int, m: Rrep, env: Env)
    requires !n.reboot && from != n.ip
    ensures var n', t := Receive(n, from, ttl, RrepMsg(m), env), LearntRrep(n, from, m, env.now);
            && n'.outbox == n.outbox + (if m.dest != from then RepairRerr(n.tq.list, t, m.dest) else [])
                 + (if m.src != n.ip && m.src != 0 && FindActive(t, m.src, env.now) && t[m.src].next != 0
                    then [Out(Some(t[m.src].next), -1, RrepMsg(Rrep(U8(m.hop + 1), m.dest, m.destSeq, m.src, m.life)))]
                    else [])
            && Answers(n'.trace)
               == Answers(n.trace) + [(from, true)] + (if m.dest != from then [(m.dest, true)] else [])
  {
    hide RecvRREP, Unicast, Answers, RepairRerr, LearntRrep;
    RecvRREPIs(n, from, m, env.now);
    var (n1, m1, send) := RecvRREP(n, from, m, env.now);
    var t := LearntRrep(n, from, m, env.now);
    UnicastIs(n1, m.src, m1, env.now);
    UnicastEffect(n1, m.src, m1, env.now);
    assert m.src in t ==> n1.table[m.src] == t[m.src].(prec := n1.table[m.src].prec);
    hide SameButPrec;
  }

  // ---- precursors ----

  function PrecOf(t: Table, k: Addr): seq<Addr> {
    if k in t then t[k].prec else []
  }

  /** l with p noted: behind all others, and only once. */
  function Noted(l: seq<Addr>, p: Addr): (l': seq<Addr>)
    ensures p in l' && l <= l' && (forall x :: x in l' ==> x in l || x == p)
    ensures |l'| <= |l| + 1 && (Distinct(l) ==> Distinct(l'))
  {
    if p in l then l else l + [p]
  }

  predicate Distinct(l: seq<Addr>) {
    forall i, j :: 0 <= i < j < |l| ==> l[i] != l[j]
  }

  lemma LearnKeepsPrec(t: Table, from: Addr, s: u32, life: int,
                       dst: Addr, seqNum: u32, hop: int, life': int, keep: bool, k: Addr)
    ensures var t1 := NeighborTable(t, from, s, life);
            && PrecOf(t1, k) == PrecOf(t, k)
            && PrecOf(RouteTable(t1, dst, seqNum, hop, from, life', keep), k) == PrecOf(t, k)
  {
  }

  lemma UnicastKeepsPrec(n: Node, toward: Addr, m: Rrep, now: int, k: Addr)
    ensures PrecOf(Unicast(n, toward, m, now).table, k) == PrecOf(n.table, k)
  {
    hide Unicast;
    UnicastIs(n, toward, m, now);
  }

  /**
   A relayed RREP makes the next hop toward its originator a precursor of its destination, if both
   routes are usable; nothing else changes in any list.
   */
  lemma {:induction false} RrepPrecursors(n: Node, from: Addr, ttl: int, m: Rrep, env: Env, k: Addr)
    requires !n.reboot && from != n.ip
    ensures var n', t := Receive(n, from, ttl, RrepMsg(m), env), LearntRrep(n, from, m, env.now);
            PrecOf(n'.table, k)
            == if k == m.dest && m.src != n.ip && m.src != 0
                  && FindActive(t, m.dest, env.now) && FindActive(t, m.src, env.now)
               then Noted(PrecOf(n.table, k), t[m.src].next) else PrecOf(n.table, k)
  {
    hide RecvRREP, Unicast, RepairRerr, Answers, NeighborTable, RouteTable, SameButPrec;
    RecvRREPIs(n, from, m, env.now);
    var (n1, m1, send) := RecvRREP(n, from, m, env.now);
    UnicastKeepsPrec(n1, m.src, m1, env.now, k);
    LearnKeepsPrec(n.table, from, if m.dest == from then m.destSeq else 0, env.now + NEIGHBOR_LIFE,
                   m.dest, m.destSeq, m.hop + 1, env.now + m.life, false, k);
  }

  /**
   An intermediate node that answers a RREQ over usable routes makes its sender a precursor of the
   destination, and the next hop toward the destination one of the originator; nothing else changes.
   */
  lemma {:induction false} RreqPrecursors(n: Node, from: Addr, ttl: int, m: Rreq, env: Env, k: Addr)
    requires !n.reboot && from != n.ip
    ensures var n', t := Receive(n, from, ttl, RreqMsg(m), env), LearntRreq(n, from, m, env.now);
            var answers := !Ignored(n, m) && m.dest != n.ip && FindValid(t, m.dest, m.destSeq)
                           && FindActive(t, m.dest, env.now);
            var l := if answers && k == m.dest then Noted(PrecOf(n.table, k), from) else PrecOf(n.table, k);
            PrecOf(n'.table, k)
            == if answers && k == m.src && FindActive(t, m.src, env.now) then Noted(l, t[m.dest].next) else l
  {
    hide RecvRREQ, AnswerRREQ, RepairRerr, Answers, NeighborTable, RouteTable, Receive;
    LearnKeepsPrec(n.table, from, if m.src == from then m.srcSeq else 0, env.now + NEIGHBOR_LIFE, m.src, m.srcSeq,
                   m.hop + 1, ReverseNew(NeighborTable(n.table, from, if m.src == from then m.srcSeq else 0,
                                                       env.now + NEIGHBOR_LIFE), m, env.now), true, k);
    if Ignored(n, m) {
      RreqIgnored(n, from, ttl, m, env);
    } else {
      RecvRREQIs(n, from, m, env.now);
      var (n1, m1, v) := RecvRREQ(n, from, m, env.now);
      HandledTable(n, from, ttl, m, env);
      if v.GenRrep? {
        AnswerPrecursors(n1, from, m, env, k);
      }
    }
  }

  lemma HandledTable(n: Node, from: Addr, ttl: int, m: Rreq, env: Env)
    requires !n.reboot && from != n.ip
    ensures var (n1, m1, v) := RecvRREQ(n, from, m, env.now);
            Receive(n, from, ttl, RreqMsg(m), env).table
            == if v.GenRrep? then AnswerRREQ(n1, from, m, env).table else n1.table
  {
    hide RecvRREQ, AnswerRREQ;
  }

  lemma AnswerPrecursors(n: Node, from: Addr, m: Rreq, env: Env, k: Addr)
    ensures var t' := AnswerRREQ(n, from, m, env).table;
            var answers := m.dest != n.ip && FindActive(n.table, m.dest, env.now);
            var l := if answers && k == m.dest then Noted(PrecOf(n.table, k), from) else PrecOf(n.table, k);
            PrecOf(t', k)
            == if answers && k == m.src && FindActive(n.table, m.src, env.now)
               then Noted(l, n.table[m.dest].next) else l
  {
    hide CreateRREP, CreateGRREP, Unicast;
    CreatePrecursors(n, from, m, env, k);
    var (n1, rrep) := CreateRREP(n, from, m, env);
    UnicastKeepsPrec(n1, m.src, rrep, env.now, k);
    var n2 := Unicast(n1, m.src, rrep, env.now);
    UnicastKeepsPrec(n2, m.dest, CreateGRREP(n2, m, env), env.now, k);
  }

  lemma CreatePrecursors(n: Node, from: Addr, m: Rreq, env: Env, k: Addr)
    ensures var t' := CreateRREP(n, from, m, env).0.table;
            var answers := m.dest != n.ip && FindActive(n.table, m.dest, env.now);
            var l := if answers && k == m.dest then Noted(PrecOf(n.table, k), from) else PrecOf(n.table, k);
            PrecOf(t', k)
            == if answers && k == m.src && FindActive(n.table, m.src, env.now)
               then Noted(l, n.table[m.dest].next) else l
  {
  }
}
