/**
 Route discovery at one daemon: how the requests of the Local Agent, the RREQ and local repair
 timers, the pending list and the table go together, seen from one destination at a time.
 */
module Discoveries {
  import opened Base
  import opened Params
  import opened Timers
  import opened Node
  import opened Steps
  import opened Effects
  import opened Schedule

  function JobIs(j0: Job): Job -> bool {
    (j: Job) => j == j0
  }

  function RreqTimers(q: seq<Timer<Job>>, d: Addr): nat {
    Count(q, JobIs(Job(RreqTimer, d)))
  }

  function LrTimers(q: seq<Timer<Job>>, d: Addr): nat {
    Count(q, JobIs(Job(LrTimer, d)))
  }

  function PendingFor(l: seq<Pending>, d: Addr): nat {
    if l == [] then 0 else (if l[0].rreq.dest == d then 1 else 0) + PendingFor(l[1..], d)
  }

  /** The last request for d has not been answered. */
  predicate Open(trace: seq<Trace>, d: Addr) {
    if trace == [] then false
    else
      var e := trace[|trace| - 1];
      if e.Request? && e.dst == d then true
      else if e.Reply? && e.dst == d then false
      else Open(trace[..|trace| - 1], d)
  }

  /** The last request for d was made by this host, and has not been answered. */
  predicate OpenLocal(trace: seq<Trace>, d: Addr) {
    if trace == [] then false
    else
      var e := trace[|trace| - 1];
      if e.Request? && e.dst == d then e.local
      else if e.Reply? && e.dst == d then false
      else OpenLocal(trace[..|trace| - 1], d)
  }

  /** Everything about d that matters here. */
  datatype View = View(rreq: nat, lr: nat, pending: nat, open: bool, local: bool, active: bool, reboot: bool)

  ghost function ViewOf(n: Node, d: Addr): View {
    View(RreqTimers(n.tq.list, d), LrTimers(n.tq.list, d), PendingFor(n.pending, d),
         Open(n.trace, d), OpenLocal(n.trace, d) && d != n.ip, IsActive(n.table, d), n.reboot)
  }

  /** The RREQs sent and sent again so far, what is pending, and the floods handled and remembered. */
  datatype Totals = Totals(resent: nat, originated: nat, pending: seq<Pending>,
                           handled: seq<Trace>, fw: map<(Addr, u32), int>)

  function ResentIn(trace: seq<Trace>): nat {
    if trace == [] then 0 else ResentIn(trace[..|trace| - 1]) + if trace[|trace| - 1].Resent? then 1 else 0
  }

  function OriginatedIn(trace: seq<Trace>): nat {
    if trace == [] then 0 else OriginatedIn(trace[..|trace| - 1]) + if trace[|trace| - 1].Originated? then 1 else 0
  }

  function HandledIn(trace: seq<Trace>): seq<Trace> {
    if trace == [] then []
    else HandledIn(trace[..|trace| - 1]) + if trace[|trace| - 1].Handled? then [trace[|trace| - 1]] else []
  }

  function TotalsOf(n: Node): Totals {
    Totals(ResentIn(n.trace), OriginatedIn(n.trace), n.pending, HandledIn(n.trace), n.fw)
  }

  /** The one-timer property, for a destination with view v. */
  ghost predicate OneTimer(v: View) {
    && v.rreq + v.lr <= 1
    && (v.rreq + v.lr == 1 ==> v.open)
    && (v.local ==> v.rreq == 1)
    && (v.lr == 1 ==> !v.active)
    && (v.reboot ==> v.rreq + v.lr == 0)
  }

  /** Every RREQ timer finds a pending entry. */
  ghost predicate Backed(v: View) {
    v.rreq <= v.pending
  }

  // ---- counting ----

  lemma AppendTrace(trace: seq<Trace>, e: Trace, d: Addr)
    ensures Open(trace + [e], d)
      == if e.Request? && e.dst == d then true else if e.Reply? && e.dst == d then false else Open(trace, d)
    ensures OpenLocal(trace + [e], d)
      == if e.Request? && e.dst == d then e.local else if e.Reply? && e.dst == d then false else OpenLocal(trace, d)
    ensures ResentIn(trace + [e]) == ResentIn(trace) + if e.Resent? then 1 else 0
    ensures OriginatedIn(trace + [e]) == OriginatedIn(trace) + if e.Originated? then 1 else 0
    ensures HandledIn(trace + [e]) == HandledIn(trace) + if e.Handled? then [e] else []
  {
  }

  lemma {:induction false} PendingConcat(a: seq<Pending>, b: seq<Pending>, d: Addr)
    ensures PendingFor(a + b, d) == PendingFor(a, d) + PendingFor(b, d)
  {
    if a == [] {
      assert a + b == b;
    } else {
      assert (a + b)[1..] == a[1..] + b;
      PendingConcat(a[1..], b, d);
    }
  }

  lemma PendingSplit(l: seq<Pending>, i: nat, d: Addr)
    requires i < |l|
    ensures PendingFor(l, d)
         == PendingFor(l[..i], d) + (if l[i].rreq.dest == d then 1 else 0) + PendingFor(l[i + 1..], d)
  {
    assert l == l[..i] + ([l[i]] + l[i + 1..]);
    PendingConcat(l[..i], [l[i]] + l[i + 1..], d);
    PendingConcat([l[i]], l[i + 1..], d);
  }

  lemma PendingRemoved(l: seq<Pending>, i: nat, d: Addr)
    requires i < |l|
    ensures PendingFor(l[..i] + l[i + 1..], d) == PendingFor(l, d) - if l[i].rreq.dest == d then 1 else 0
  {
    PendingSplit(l, i, d);
    PendingConcat(l[..i], l[i + 1..], d);
  }

  lemma PendingUpdated(l: seq<Pending>, i: nat, p: Pending, d: Addr)
    requires i < |l| && p.rreq.dest == l[i].rreq.dest
    ensures PendingFor(l[i := p], d) == PendingFor(l, d)
  {
    PendingSplit(l, i, d);
    PendingSplit(l[i := p], i, d);
    assert l[i := p][..i] == l[..i] && l[i := p][i + 1..] == l[i + 1..];
  }

  lemma {:induction false} PendingFound(l: seq<Pending>, d: Addr)
    ensures PendingFor(l, d) > 0 <==> FirstPending(l, d) < |l|
  {
    if l != [] && l[0].rreq.dest != d {
      PendingFound(l[1..], d);
    }
  }

  /** Removing the first RREQ or LR timer of d takes one of the two counts of d down by one. */
  lemma EndTimers(q: seq<Timer<Job>>, d: Addr, k: Addr)
    ensures var q' := RemoveFirst(q, DiscoveryJob(d));
            && RreqTimers(q', k) <= RreqTimers(q, k) && LrTimers(q', k) <= LrTimers(q, k)
            && RreqTimers(q', k) + LrTimers(q', k)
               == var c := RreqTimers(q, k) + LrTimers(q, k); if k == d && c > 0 then c - 1 else c
  {
    var i := First(q, DiscoveryJob(d));
    if i < |q| {
      CountRemoveAt(q, i, JobIs(Job(RreqTimer, k)));
      CountRemoveAt(q, i, JobIs(Job(LrTimer, k)));
    } else if k == d {
      NoTimers(q, d);
    }
  }

  lemma {:induction false} NoTimers(q: seq<Timer<Job>>, d: Addr)
    requires First(q, DiscoveryJob(d)) == |q|
    ensures RreqTimers(q, d) == 0 && LrTimers(q, d) == 0
  {
    if q != [] {
      NoTimers(q[1..], d);
    }
  }

  lemma KeepTimers(q: seq<Timer<Job>>, nb: Addr, k: Addr)
    ensures var q' := RemoveFirst(q, ActiveRouteJob(nb));
            RreqTimers(q', k) == RreqTimers(q, k) && LrTimers(q', k) == LrTimers(q, k)
  {
    var i := First(q, ActiveRouteJob(nb));
    if i < |q| {
      CountRemoveAt(q, i, JobIs(Job(RreqTimer, k)));
      CountRemoveAt(q, i, JobIs(Job(LrTimer, k)));
    }
  }

  lemma AddTimers(q: seq<Timer<Job>>, t: Timer<Job>, k: Addr)
    ensures var q' := Insert(q, t);
            && RreqTimers(q', k) == RreqTimers(q, k) + (if t.what == Job(RreqTimer, k) then 1 else 0)
            && LrTimers(q', k) == LrTimers(q, k) + (if t.what == Job(LrTimer, k) then 1 else 0)
  {
    CountInsert(q, t, JobIs(Job(RreqTimer, k)));
    CountInsert(q, t, JobIs(Job(LrTimer, k)));
  }

  lemma {:induction false} SameJobsSameCount(q: seq<Timer<Job>>, q': seq<Timer<Job>>, p: Job -> bool)
    requires |q'| == |q| && forall i :: 0 <= i < |q| ==> q'[i].what == q[i].what
    ensures Count(q', p) == Count(q, p)
  {
    if q != [] {
      SameJobsSameCount(q[1..], q'[1..], p);
    }
  }

  // ---- how the steps move a view ----

  /** Nothing happened to d, except that its route may have gone. */
  ghost predicate Calm(v: View, v': View) {
    v' == v.(active := v'.active) && (v'.active ==> v.active)
  }

  /** A route to d appeared: d is answered and one of its timers is gone. */
  ghost predicate Found(v: View, v': View) {
    && v'.rreq <= v.rreq && v'.lr <= v.lr
    && v'.rreq + v'.lr == (if v.rreq + v.lr == 0 then 0 else v.rreq + v.lr - 1)
    && !v'.open && !v'.local && v'.active && v'.pending == v.pending && v'.reboot == v.reboot
  }

  lemma EndDiscoveryViews(n: Node, d: Addr, now: int, k: Addr)
    ensures var v, v' := ViewOf(n, k), ViewOf(EndDiscovery(n, d, now), k);
            v' == v.(rreq := v'.rreq, lr := v'.lr) && v'.rreq <= v.rreq && v'.lr <= v.lr
            && v'.rreq + v'.lr == if k == d && v.rreq + v.lr > 0 then v.rreq + v.lr - 1 else v.rreq + v.lr
    ensures TotalsOf(EndDiscovery(n, d, now)) == TotalsOf(n)
  {
    hide First, Count, Open, OpenLocal, ResentIn, OriginatedIn, HandledIn, PendingFor;
    EndTimers(n.tq.list, d, k);
    assert EndDiscovery(n, d, now).tq.list == RemoveFirst(n.tq.list, DiscoveryJob(d));
  }

  lemma ActiveTimerViews(n: Node, nb: Addr, src: Addr, now: int, k: Addr)
    ensures ViewOf(RefreshActiveTimer(n, nb, src, now), k) == ViewOf(n, k)
    ensures TotalsOf(RefreshActiveTimer(n, nb, src, now)) == TotalsOf(n)
  {
    hide First, Count, Open, OpenLocal, ResentIn, OriginatedIn, HandledIn, PendingFor, Position;
    KeepTimers(n.tq.list, nb, k);
    var t := Timer(now + NEIGHBOR_LIFE, Job(ActiveRouteTimer, nb));
    AddTimers(n.tq.list, t, k);
    AddTimers(RemoveFirst(n.tq.list, ActiveRouteJob(nb)), t, k);
    hide RemoveFirst, Insert;
  }

  lemma NeighborUpdateViews(n: Node, nb: Addr, src: Addr, seqNum: u32, life: int, now: int, k: Addr)
    ensures var v, v' := ViewOf(n, k), ViewOf(NeighborUpdate(n, nb, src, seqNum, life, now), k);
            if k == nb then Found(v, v') else v' == v
    ensures TotalsOf(NeighborUpdate(n, nb, src, seqNum, life, now)) == TotalsOf(n)
  {
    hide EndDiscovery, RefreshActiveTimer, Count, Open, OpenLocal, ResentIn, OriginatedIn, HandledIn, PendingFor;
    var n1 := n.(table := NeighborTable(n.table, nb, seqNum, life),
                 fib := if IsActive(n.table, nb) then n.fib else n.fib[nb := nb]);
    var n2 := ReplyTo(n1, nb, true);
    AppendTrace(n1.trace, Reply(nb, true, nb in n1.fib), k);
    EndDiscoveryViews(n2, nb, now, k);
    ActiveTimerViews(EndDiscovery(n2, nb, now), nb, src, now, k);
  }

  lemma RouteUpdateViews(n: Node, dst: Addr, seqNum: u32, hop: int, nhop: Addr, life: int, keep: bool, now: int,
      k: Addr)
    ensures var v, v' := ViewOf(n, k), ViewOf(RouteUpdate(n, dst, seqNum, hop, nhop, life, keep, now), k);
            if k == dst then Found(v, v') else v' == v
    ensures TotalsOf(RouteUpdate(n, dst, seqNum, hop, nhop, life, keep, now)) == TotalsOf(n)
  {
    hide EndDiscovery, GenerateRERR, Count, Open, OpenLocal, ResentIn, OriginatedIn, HandledIn, PendingFor,
        HasDiscovery;
    var n1 := n.(table := RouteTable(n.table, dst, seqNum, hop, nhop, life, keep),
                 fib := if Rewrites(n.table, dst, seqNum, hop, nhop) then n.fib[dst := nhop] else n.fib);
    var n2 := ReplyTo(n1, dst, true);
    AppendTrace(n1.trace, Reply(dst, true, dst in n1.fib), k);
    EndDiscoveryViews(n2, dst, now, k);
    var n3 := EndDiscovery(n2, dst, now);
    GenerateRERRFrame(n3, dst, true, false);
  }

  /** Steps that leave timers, pending list and trace alone and activate nothing are calm. */
  lemma CalmFrame(n: Node, n': Node, k: Addr)
    requires n'.tq == n.tq && n'.pending == n.pending && n'.trace == n.trace && n'.ip == n.ip && n'.reboot == n.reboot
    requires IsActive(n'.table, k) ==> IsActive(n.table, k)
    ensures Calm(ViewOf(n, k), ViewOf(n', k))
  {
  }
  // ---- received messages ----

  ghost predicate Preserves(v: View, v': View) {
    (OneTimer(v) ==> OneTimer(v')) && (Backed(v) ==> Backed(v'))
  }

  /** At most the flood (src, id) was handled, and only if it was not remembered. */
  ghost predicate HandlesOnce(t: Totals, t': Totals, src: Addr, id: u32, now: int) {
    t' == t || ((src, id) !in t.fw && t' == t.(handled := t.handled + [Handled(src, id, now)],
                                             fw := t.fw[(src, id) := now + PATH_TRAVERSAL_TIME]))
  }

  lemma SameCoresActive(t: Table, t': Table, k: Addr)
    requires SameCores(t, t')
    ensures IsActive(t', k) <==> IsActive(t, k)
  {
  }

  lemma RecvRREQPreserves(n: Node, from: Addr, m: Rreq, now: int, k: Addr)
    ensures Preserves(ViewOf(n, k), ViewOf(RecvRREQ(n, from, m, now).0, k))
    ensures HandlesOnce(TotalsOf(n), TotalsOf(RecvRREQ(n, from, m, now).0), m.src, m.id, now)
  {
    hide NeighborUpdate, RouteUpdate, RecvRREQ, Open, OpenLocal, ResentIn, OriginatedIn, HandledIn, RreqTimers,
        LrTimers, PendingFor;
    RecvRREQShape(n, from, m, now);
    var s := if m.src == from then m.srcSeq else 0;
    var n1 := NeighborUpdate(n, from, m.src, s, now + NEIGHBOR_LIFE, now);
    NeighborUpdateViews(n, from, m.src, s, now + NEIGHBOR_LIFE, now, k);
    var n2 := n1.(fw := n1.fw[(m.src, m.id) := now + PATH_TRAVERSAL_TIME],
                  trace := n1.trace + [Handled(m.src, m.id, now)]);
    AppendTrace(n1.trace, Handled(m.src, m.id, now), k);
    assert ViewOf(n2, k) == ViewOf(n1, k);
    RouteUpdateViews(n2, m.src, m.srcSeq, m.hop + 1, from, ReverseNew(n2.table, m, now), true, now, k);
    var n3 := if m.src != from then ReverseRouteUpdate(n2, from, m, now) else n2;
    var n' := RecvRREQ(n, from, m, now).0;
    hide ReverseRouteUpdate;
    assert ViewOf(n', k) == ViewOf(n, k) || ViewOf(n', k) == ViewOf(n1, k) || ViewOf(n', k) == ViewOf(n3, k);
  }

  lemma UnicastViews(n: Node, toward: Addr, m: Rrep, now: int, k: Addr)
    ensures ViewOf(Unicast(n, toward, m, now), k) == ViewOf(n, k)
    ensures TotalsOf(Unicast(n, toward, m, now)) == TotalsOf(n)
  {
    hide Unicast, SameCores;
    UnicastEffect(n, toward, m, now);
    SameCoresActive(n.table, Unicast(n, toward, m, now).table, k);
  }

  lemma AnswerRREQViews(n: Node, from: Addr, m: Rreq, env: Env, k: Addr)
    ensures ViewOf(AnswerRREQ(n, from, m, env), k) == ViewOf(n, k)
    ensures TotalsOf(AnswerRREQ(n, from, m, env)) == TotalsOf(n)
  {
    hide CreateRREP, CreateGRREP, Unicast, SameCores;
    CreateRREPCores(n, from, m, env);
    var (n1, rrep) := CreateRREP(n, from, m, env);
    SameCoresActive(n.table, n1.table, k);
    assert ViewOf(n1, k) == ViewOf(n, k);
    UnicastViews(n1, m.src, rrep, env.now, k);
    var n2 := Unicast(n1, m.src, rrep, env.now);
    UnicastViews(n2, m.dest, CreateGRREP(n2, m, env), env.now, k);
  }

  lemma ProcessRREQPreserves(n: Node, from: Addr, ttl: int, m: Rreq, env: Env, k: Addr)
    ensures Preserves(ViewOf(n, k), ViewOf(ProcessRREQ(n, from, ttl, m, env), k))
    ensures HandlesOnce(TotalsOf(n), TotalsOf(ProcessRREQ(n, from, ttl, m, env)), m.src, m.id, env.now)
  {
    hide RebootRREQ, RecvRREQ, AnswerRREQ;
    if n.reboot {
      RebootRREQFrame(n, from, m, env.now);
      RebootPreserves(n, RebootRREQ(n, from, m, env.now), k);
    } else {
      var (n1, m1, v) := RecvRREQ(n, from, m, env.now);
      RecvRREQPreserves(n, from, m, env.now, k);
      AnswerRREQViews(n1, from, m, env, k);
      assert ViewOf(Send(n1, None, ttl, RreqMsg(m1)), k) == ViewOf(n1, k);
    }
  }

  /** During reboot only the table changes, and there are no timers to get out of step with it. */
  lemma RebootPreserves(n: Node, n': Node, k: Addr)
    requires n.reboot && n' == n.(table := n'.table, localSeq := n'.localSeq)
    ensures Preserves(ViewOf(n, k), ViewOf(n', k))
  {
  }

  lemma RebootRREQFrame(n: Node, from: Addr, m: Rreq, now: int)
    ensures var n' := RebootRREQ(n, from, m, now); n' == n.(table := n'.table, localSeq := n'.localSeq)
  {
  }

  lemma RebootRREPFrame(n: Node, from: Addr, m: Rrep, now: int)
    ensures var n' := RebootRREP(n, from, m, now); n' == n.(table := n'.table, localSeq := n'.localSeq)
  {
  }

  lemma RecvRREPPreserves(n: Node, from: Addr, m: Rrep, now: int, k: Addr)
    ensures Preserves(ViewOf(n, k), ViewOf(RecvRREP(n, from, m, now).0, k))
    ensures TotalsOf(RecvRREP(n, from, m, now).0) == TotalsOf(n)
  {
    hide NeighborUpdate, RouteUpdate, RecvRREP, SameCores, Open, OpenLocal, ResentIn, OriginatedIn, HandledIn,
        RreqTimers, LrTimers, PendingFor;
    RecvRREPShape(n, from, m, now);
    var s := if m.dest == from then m.destSeq else 0;
    var n1 := NeighborUpdate(n, from, m.src, s, now + NEIGHBOR_LIFE, now);
    NeighborUpdateViews(n, from, m.src, s, now + NEIGHBOR_LIFE, now, k);
    RouteUpdateViews(n1, m.dest, m.destSeq, m.hop + 1, from, now + m.life, false, now, k);
    var n2 := if m.dest != from then ForwardRouteUpdate(n1, from, m, now) else n1;
    SameCoresActive(n2.table, RecvRREP(n, from, m, now).0.table, k);
    hide ForwardRouteUpdate;
  }

  lemma ProcessRREPPreserves(n: Node, from: Addr, m: Rrep, env: Env, k: Addr)
    ensures Preserves(ViewOf(n, k), ViewOf(ProcessRREP(n, from, m, env), k))
    ensures TotalsOf(ProcessRREP(n, from, m, env)) == TotalsOf(n)
  {
    hide RebootRREP, RecvRREP, Unicast;
    if n.reboot {
      RebootRREPFrame(n, from, m, env.now);
      RebootPreserves(n, RebootRREP(n, from, m, env.now), k);
    } else {
      var (n1, m1, send) := RecvRREP(n, from, m, env.now);
      RecvRREPPreserves(n, from, m, env.now, k);
      UnicastViews(n1, m.src, m1, env.now, k);
    }
  }

  lemma {:induction false} UpdateInvalidActive(t: Table, dests: seq<Unreach>, k: Addr)
    ensures IsActive(UpdateInvalid(t, dests), k) <==> IsActive(t, k)
    decreases dests
  {
    if dests != [] {
      var u := dests[0];
      var t1 := if u.dest in t && t[u.dest].hop == INFINITY && u.seqNum > t[u.dest].seqNum
                then t[u.dest := t[u.dest].(seqNum := u.seqNum)] else t;
      UpdateInvalidActive(t1, dests[1..], k);
    }
  }

  lemma {:induction false} UpdateValidActive(n: Node, dests: seq<Unreach>, prevHop: Addr, now: int, k: Addr)
    ensures IsActive(UpdateValid(n, dests, prevHop, now).table, k) ==> IsActive(n.table, k)
    decreases dests
  {
    if dests != [] {
      UpdateValidActive(if Hit(n.table, dests[0].dest, prevHop) then InvalidateOne(n, dests[0], now) else n,
                        dests[1..], prevHop, now, k);
    }
  }

  lemma ForwardRERRCalm(n: Node, from: Addr, m: Rerr, now: int, k: Addr)
    ensures Calm(ViewOf(n, k), ViewOf(ForwardRERR(n, from, m, now), k))
    ensures TotalsOf(ForwardRERR(n, from, m, now)) == TotalsOf(n)
  {
    hide UpdateValid, NewDests, HasPrec;
    UpdateValidFrame(n, m.dests, from, now);
    UpdateValidActive(n, m.dests, from, now, k);
    CalmFrame(n, ForwardRERR(n, from, m, now), k);
  }

  lemma LocalRepairRERRCalm(n: Node, from: Addr, m: Rerr, now: int, k: Addr)
    ensures Calm(ViewOf(n, k), ViewOf(LocalRepairRERR(n, from, m, now), k))
    ensures TotalsOf(LocalRepairRERR(n, from, m, now)) == TotalsOf(n)
  {
    hide GenerateRERR;
    var n' := LocalRepairRERR(n, from, m, now);
    if |m.dests| > 0 && m.dests[0].dest in n.table {
      var d := m.dests[0].dest;
      GenerateRERRFrame(n.(table := n.table[d := n.table[d].(seqNum := m.dests[0].seqNum)]), d, true, false);
    }
    CalmFrame(n, n', k);
  }

  lemma RebootRERRPreserves(n: Node, from: Addr, m: Rerr, env: Env, k: Addr)
    requires n.reboot
    ensures Preserves(ViewOf(n, k), ViewOf(ProcessRERR(n, from, m, env), k))
    ensures TotalsOf(ProcessRERR(n, from, m, env)) == TotalsOf(n)
  {
    hide NeighborTable, UpdateInvalid, UpdateValid;
    var n1 := n.(table := NeighborTable(n.table, from, 0, env.now + NEIGHBOR_LIFE));
    RebootPreserves(n, n1, k);
    var n2 := n1.(table := UpdateInvalid(n1.table, m.dests));
    UpdateInvalidActive(n1.table, m.dests, k);
    UpdateValidFrame(n2, m.dests, from, env.now);
    UpdateValidActive(n2, m.dests, from, env.now, k);
    CalmFrame(n1, UpdateValid(n2, m.dests, from, env.now), k);
  }

  lemma ProcessRERRPreserves(n: Node, from: Addr, m: Rerr, env: Env, k: Addr)
    ensures Preserves(ViewOf(n, k), ViewOf(ProcessRERR(n, from, m, env), k))
    ensures TotalsOf(ProcessRERR(n, from, m, env)) == TotalsOf(n)
  {
    hide NeighborUpdate, NeighborTable, UpdateInvalid, UpdateValid, ForwardRERR, LocalRepairRERR;
    var life := env.now + NEIGHBOR_LIFE;
    if n.reboot {
      RebootRERRPreserves(n, from, m, env, k);
    } else {
      var n1 := NeighborUpdate(n, from, from, 0, life, env.now);
      NeighborUpdateViews(n, from, from, 0, life, env.now, k);
      var n2 := n1.(table := UpdateInvalid(n1.table, m.dests));
      UpdateInvalidActive(n1.table, m.dests, k);
      CalmFrame(n1, n2, k);
      LocalRepairRERRCalm(n2, from, m, env.now, k);
      ForwardRERRCalm(n2, from, m, env.now, k);
    }
  }

  lemma ReceivePreserves(n: Node, from: Addr, ttl: int, msg: Msg, env: Env, k: Addr)
    ensures Preserves(ViewOf(n, k), ViewOf(Receive(n, from, ttl, msg, env), k))
    ensures exists src, id :: HandlesOnce(TotalsOf(n), TotalsOf(Receive(n, from, ttl, msg, env)), src, id, env.now)
  {
    hide ProcessRREQ, ProcessRREP, ProcessRERR;
    assert HandlesOnce(TotalsOf(n), TotalsOf(n), 0, 0, env.now);
    match msg
    case RreqMsg(m) => ProcessRREQPreserves(n, from, ttl - 1, m, env, k);
    case RrepMsg(m) => ProcessRREPPreserves(n, from, m, env, k);
    case RerrMsg(m) => ProcessRERRPreserves(n, from, m, env, k);
  }
  // ---- requests ----

  lemma SendRREQShape(n: Node, d: Addr, g: bool, now: int) returns (ttl: Ttl, m: Rreq)
    requires d != n.ip
    ensures var n' := SendRREQ(n, d, g, now);
      && m.dest == d && n'.pending == n.pending + [Pending(m, 0, ttl)] && n'.trace == n.trace + [Originated(d)]
      && n'.tq.list == Insert(n.tq.list, Timer(now + 2 * ttl * NODE_TRAVERSAL_TIME, Job(RreqTimer, d)))
      && SameFlags(n.table, n'.table) && n'.ip == n.ip && n'.reboot == n.reboot && n'.fw == n.fw
  {
    hide Insert, GetTTL;
    var n1: Node;
    n1, m := CreateRREQ(n, d, g).0, CreateRREQ(n, d, g).1;
    var t := if d in n1.table then n1.table[d := n1.table[d].(life := now + PATH_TRAVERSAL_TIME)] else n1.table;
    ttl := FirstTtl(t, d, now);
    assert SendRREQ(n, d, g, now).tq.list
        == Insert(n.tq.list, Timer(now + 2 * ttl * NODE_TRAVERSAL_TIME, Job(RreqTimer, d)));
  }

  lemma SendRREQViews(n: Node, d: Addr, g: bool, now: int, k: Addr)
    ensures var v, v' := ViewOf(n, k), ViewOf(SendRREQ(n, d, g, now), k);
            v' == if k == d && d != n.ip then v.(rreq := v.rreq + 1, pending := v.pending + 1) else v
  {
    hide SendRREQ, Insert, RreqTimers, LrTimers, Open, OpenLocal, ResentIn, OriginatedIn, HandledIn, PendingFor;
    if d == n.ip {
      SendToSelf(n, g, now);
    } else {
      var ttl, m := SendRREQShape(n, d, g, now);
      AddTimers(n.tq.list, Timer(now + 2 * ttl * NODE_TRAVERSAL_TIME, Job(RreqTimer, d)), k);
      AppendTrace(n.trace, Originated(d), k);
      PendingConcat(n.pending, [Pending(m, 0, ttl)], k);
      PendingOne(Pending(m, 0, ttl), k);
      SameFlagsActive(n.table, SendRREQ(n, d, g, now).table, k);
    }
  }

  lemma SendToSelf(n: Node, g: bool, now: int)
    ensures SendRREQ(n, n.ip, g, now) == n
  {
  }

  lemma SameFlagsActive(t: Table, t': Table, k: Addr)
    requires SameFlags(t, t')
    ensures IsActive(t', k) <==> IsActive(t, k)
  {
  }

  lemma PendingOne(p: Pending, k: Addr)
    ensures PendingFor([p], k) == if k == p.rreq.dest then 1 else 0
  {
  }

  lemma DoLocalRepairViews(n: Node, d: Addr, g: bool, now: int, k: Addr)
    ensures var v, v' := ViewOf(n, k), ViewOf(DoLocalRepair(n, d, g, now), k);
            v' == if k == d then v.(lr := v.lr + 1) else v
  {
    hide Insert, Count, Open, OpenLocal, ResentIn, OriginatedIn, HandledIn, PendingFor, Send;
    var (n1, m) := CreateRREQ(n, d, g);
    var ttl := (if d in n.table then n.table[d].lastHop else 0) + LOCAL_ADD_TTL;
    AddTimers(n.tq.list, Timer(now + 2 * ttl * NODE_TRAVERSAL_TIME, Job(LrTimer, d)), k);
    SendFrame(n1.(tq := SetTimer(n1.tq, now, 2 * ttl * NODE_TRAVERSAL_TIME, Job(LrTimer, d))), None, ttl, RreqMsg(m));
  }

  lemma ReplyViews(n: Node, d: Addr, found: bool, k: Addr)
    ensures var v, v' := ViewOf(n, k), ViewOf(ReplyTo(n, d, found), k);
            v' == if k == d then v.(open := false, local := false) else v
  {
  }

  lemma ResetRebootViews(n: Node, now: int, k: Addr)
    ensures ViewOf(n.(tq := ResetRebootTimer(n.tq, now)), k) == ViewOf(n, k)
  {
    SameJobsSameCount(n.tq.list, ResetRebootTimer(n.tq, now).list, JobIs(Job(RreqTimer, k)));
    SameJobsSameCount(n.tq.list, ResetRebootTimer(n.tq, now).list, JobIs(Job(LrTimer, k)));
  }

  lemma RerrViews(n: Node, d: Addr, nFlag: bool, brd: bool, k: Addr)
    ensures ViewOf(GenerateRERR(n, d, nFlag, brd), k) == ViewOf(n, k)
  {
    hide GenerateRERR;
    GenerateRERRFrame(n, d, nFlag, brd);
  }

  /** Requests that are neither answered nor started a discovery for: for oneself, or with a repair under way. */
  predicate Silent(n: Node, d: Addr, src: Addr, now: int) {
    && !n.reboot && !FindActive(n.table, d, now)
    && if src == n.ip then d == n.ip else d in n.repair && !(d in n.table && n.table[d].flag.Broken?)
  }

  /** The outcomes of a request on the view of its own destination. */
  ghost predicate RequestOutcome(v: View, v': View, silent: bool) {
    if silent then v' == v.(open := true, local := false)
    else
      || v' == v.(open := false, local := false)
      || (!v.reboot && v' == v.(open := true, local := true, rreq := v.rreq + 1, pending := v.pending + 1))
      || (!v.reboot && !v.active && v' == v.(open := true, local := false, lr := v.lr + 1))
  }

  lemma AgentRequestViews(n: Node, d: Addr, src: Addr, tcp: bool, env: Env, k: Addr)
    ensures var v, v' := ViewOf(n, k), ViewOf(AgentRequest(n, d, src, tcp, env), k);
            if k == d then RequestOutcome(v, v', Silent(n, d, src, env.now)) else v' == v
  {
    hide SendRREQ, DoLocalRepair, GenerateRERR, ResetRebootTimer, ReplyTo, RreqTimers, LrTimers, PendingFor, Open,
        OpenLocal, ResentIn, OriginatedIn, HandledIn;
    var n0 := n.(trace := n.trace + [Request(d, src == n.ip)]);
    AppendTrace(n.trace, Request(d, src == n.ip), k);
    assert ViewOf(n0, k)
        == if k == d then ViewOf(n, k).(open := true, local := src == n.ip && d != n.ip) else ViewOf(n, k);
    var broken := d in n0.table && n0.table[d].flag.Broken?;
    assert broken ==> !ViewOf(n, d).active;
    assert n.reboot == ViewOf(n, d).reboot;
    var n' := AgentRequest(n, d, src, tcp, env);
    if n.reboot {
      if src == n.ip {
        ReplyViews(n0, d, false, k);
      } else {
        var n1 := n0.(tq := ResetRebootTimer(n0.tq, env.now));
        ResetRebootViews(n0, env.now, k);
        ReplyViews(n1, d, false, k);
        RerrViews(ReplyTo(n1, d, false), d, false, true, k);
      }
    } else if FindActive(n0.table, d, env.now) {
      ReplyViews(n0, d, true, k);
    } else if src == n.ip {
      SendRREQViews(n0, d, tcp || env.junkG, env.now, k);
    } else if d in n0.repair {
      DoLocalRepairViews(n0, d, tcp, env.now, k);
      assert broken ==> n' == DoLocalRepair(n0, d, tcp, env.now);
      assert !broken ==> n' == n0;
    } else {
      ReplyViews(n0, d, false, k);
      RerrViews(ReplyTo(n0, d, false), d, false, d !in n0.table, k);
    }
    hide ViewOf, AgentRequest;
  }

  /**
   A request keeps the one-timer property if and only if no discovery timer of its destination is
   queued, or nothing comes of it; for example if the last request for d was answered. The pending
   list covers the timers in any case.
   */
  lemma {:induction false} AgentRequestPreserves(n: Node, d: Addr, src: Addr, tcp: bool, env: Env, k: Addr)
    ensures var v, v' := ViewOf(n, k), ViewOf(AgentRequest(n, d, src, tcp, env), k);
            && (Backed(v) ==> Backed(v'))
            && (OneTimer(v) ==> (OneTimer(v') <==> k != d || v.rreq + v.lr == 0 || Silent(n, d, src, env.now)))
            && (OneTimer(v) && !v.open ==> v.rreq + v.lr == 0)
  {
    AgentRequestViews(n, d, src, tcp, env, k);
    hide AgentRequest, ViewOf, Silent;
  }

  // ---- timers ----

  /** The queue after firing the head: the head is gone, and at most one later timer has come. */
  lemma FiredTimers(q: seq<Timer<Job>>, t: Timer<Job>, k: Addr)
    requires q != [] && q[0].timeout < t.timeout
    ensures var q' := Insert(q, t)[1..];
            && RreqTimers(q', k) == RreqTimers(q, k) - (if q[0].what == Job(RreqTimer, k) then 1 else 0)
                                                     + (if t.what == Job(RreqTimer, k) then 1 else 0)
            && LrTimers(q', k) == LrTimers(q, k) - (if q[0].what == Job(LrTimer, k) then 1 else 0)
                                                 + (if t.what == Job(LrTimer, k) then 1 else 0)
  {
    InsertBehindHead(q, t);
    AddTimers(q[1..], t, k);
    HeadCounts(q, k);
  }

  lemma HeadCounts(q: seq<Timer<Job>>, k: Addr)
    requires q != []
    ensures RreqTimers(q[1..], k) == RreqTimers(q, k) - if q[0].what == Job(RreqTimer, k) then 1 else 0
    ensures LrTimers(q[1..], k) == LrTimers(q, k) - if q[0].what == Job(LrTimer, k) then 1 else 0
  {
  }

  lemma FireResend(n: Node, env: Env, k: Addr)
    requires n.tq.list != [] && n.tq.list[0].timeout <= env.now && n.tq.list[0].what.kind.RreqTimer?
    requires Backed(ViewOf(n, n.tq.list[0].what.data))
    ensures Preserves(ViewOf(n, k), ViewOf(FireHead(n, env), k))
  {
    hide Insert, Count, Open, OpenLocal, ResentIn, OriginatedIn, HandledIn, PendingFor, Send, NextRing, RemoveFirst;
    var q, d := n.tq.list, n.tq.list[0].what.data;
    HeadCounts(q, k);
    HeadCounts(q, d);
    PendingFound(n.pending, d);
    var i := FirstPending(n.pending, d);
    assert i < |n.pending|;
    var p := NextRing(n.pending[i]);
    var n' := FireHead(n, env);
    if p.retries > RREQ_RETRIES {
      PendingRemoved(n.pending, i, k);
      AppendTrace(n.trace, Reply(d, false, d in n.fib), k);
    } else {
      var t := Timer(env.now + 2 * p.ttl * NODE_TRAVERSAL_TIME, Job(RreqTimer, d));
      ResendShape(n, d, env.now);
      FiredTimers(q, t, k);
      AppendTrace(n.trace, Resent(d), k);
      NextRingDest(n.pending[i]);
      var m := p.rreq.(id := U32(n.rreqId + 1), destSeq := SeqOf(n.table, d), srcSeq := U32(n.localSeq + 1));
      PendingUpdated(n.pending, i, p.(rreq := m), k);
    }
  }

  lemma NextRingDest(p: Pending)
    ensures NextRing(p).rreq == p.rreq
  {
  }

  lemma ResendShape(n: Node, d: Addr, now: int)
    requires FirstPending(n.pending, d) < |n.pending|
    requires NextRing(n.pending[FirstPending(n.pending, d)]).retries <= RREQ_RETRIES
    ensures var n', i := ResendRREQ(n, d, now), FirstPending(n.pending, d);
            var p := NextRing(n.pending[i]);
            var m := p.rreq.(id := U32(n.rreqId + 1), destSeq := SeqOf(n.table, d), srcSeq := U32(n.localSeq + 1));
            && n'.tq.list == Insert(n.tq.list, Timer(now + 2 * p.ttl * NODE_TRAVERSAL_TIME, Job(RreqTimer, d)))
            && n'.pending == n.pending[i := p.(rreq := m)] && n'.trace == n.trace + [Resent(d)]
            && n'.table == n.table && n'.ip == n.ip && n'.reboot == n.reboot && n'.fw == n.fw
  {
    hide Insert;
  }

  lemma FireLocalRepair(n: Node, env: Env, k: Addr)
    requires n.tq.list != [] && n.tq.list[0].timeout <= env.now && n.tq.list[0].what.kind.LrTimer?
    ensures Preserves(ViewOf(n, k), ViewOf(FireHead(n, env), k))
  {
    hide Count, Open, OpenLocal, ResentIn, OriginatedIn, HandledIn, PendingFor, LRHandler;
    var q, d := n.tq.list, n.tq.list[0].what.data;
    HeadCounts(q, k);
    AppendTrace(n.trace, Reply(d, false, d in n.fib), k);
    LRHandlerShape(n, d, env.now);
  }

  /** A handler that adds the timer t, which is no discovery timer, and activates nothing. */
  lemma FireAdding(n: Node, env: Env, t: Timer<Job>, k: Addr)
    requires n.tq.list != [] && n.tq.list[0].timeout <= env.now < t.timeout
    requires !n.tq.list[0].what.kind.LrTimer? && !n.tq.list[0].what.kind.RreqTimer?
    requires !t.what.kind.LrTimer? && !t.what.kind.RreqTimer?
    requires var n1 := Handle(n, n.tq.list[0].what, env);
             && n1.tq.list == Insert(n.tq.list, t) && n1.pending == n.pending && n1.trace == n.trace && n1.ip == n.ip
             && (n1.reboot ==> n.reboot) && (IsActive(n1.table, k) ==> IsActive(n.table, k))
    ensures Preserves(ViewOf(n, k), ViewOf(FireHead(n, env), k))
  {
    hide Handle, Insert, RreqTimers, LrTimers, Open, OpenLocal, ResentIn, OriginatedIn, HandledIn, PendingFor;
    FiredTimers(n.tq.list, t, k);
  }

  /** A handler that leaves the queue alone and activates nothing. */
  lemma FireQuiet(n: Node, env: Env, k: Addr)
    requires n.tq.list != [] && n.tq.list[0].timeout <= env.now
    requires !n.tq.list[0].what.kind.LrTimer? && !n.tq.list[0].what.kind.RreqTimer?
    requires var n1 := Handle(n, n.tq.list[0].what, env);
             && n1.tq.list == n.tq.list && n1.pending == n.pending && n1.trace == n.trace && n1.ip == n.ip
             && (n1.reboot ==> n.reboot) && (IsActive(n1.table, k) ==> IsActive(n.table, k))
    ensures Preserves(ViewOf(n, k), ViewOf(FireHead(n, env), k))
  {
    hide Handle, RreqTimers, LrTimers, Open, OpenLocal, ResentIn, OriginatedIn, HandledIn, PendingFor;
    HeadCounts(n.tq.list, k);
  }

  lemma FireOther(n: Node, env: Env, k: Addr)
    requires n.tq.list != [] && n.tq.list[0].timeout <= env.now
    requires !n.tq.list[0].what.kind.LrTimer? && !n.tq.list[0].what.kind.RreqTimer?
    ensures Preserves(ViewOf(n, k), ViewOf(FireHead(n, env), k))
  {
    hide FireHead, ViewOf, Insert, AddTimer, SendHello, RefreshAll, NeighborTimeout, IsActive;
    var j := n.tq.list[0].what;
    match j.kind
    case RebootTimer =>
      HelloShape(RebootDone(n), env.now);
      if n.helloFlag {
        FireAdding(n, env, Timer(env.now + HELLO_INTERVAL, Job(HelloTimer, 0)), k);
      } else {
        FireQuiet(n, env, k);
      }
    case HelloTimer =>
      HelloShape(n, env.now);
      FireAdding(n, env, Timer(env.now + HELLO_INTERVAL, Job(HelloTimer, 0)), k);
    case PeriodicTimer =>
      var t := Timer(env.now + PERIODIC_INTERVAL, Job(PeriodicTimer, 0));
      var n1 := n.(tq := AddTimer(n.tq, env.now, PERIODIC_INTERVAL, Job(PeriodicTimer, 0)));
      AddTimerShape(n.tq, env.now, PERIODIC_INTERVAL, Job(PeriodicTimer, 0));
      RefreshAllFrame(n1, Keys(n1.table.Keys), env);
      RefreshAllActive(n1, Keys(n1.table.Keys), env, k);
      FireAdding(n, env, t, k);
    case ActiveRouteTimer =>
      NeighborTimeoutShape(n, j.data, env, k);
      FireQuiet(n, env, k);
    case RrepAckTimer =>
      FireQuiet(n, env, k);
  }

  lemma AddTimerShape(tq: Queue<Job>, now: int, delay: int, j: Job)
    ensures AddTimer(tq, now, delay, j).list == Insert(tq.list, Timer(now + delay, j))
  {
  }

  lemma HelloShape(n: Node, now: int)
    ensures var n' := SendHello(n, now);
            && n'.tq.list == Insert(n.tq.list, Timer(now + HELLO_INTERVAL, Job(HelloTimer, 0)))
            && n' == n.(tq := n'.tq, needHello := n'.needHello, outbox := n'.outbox)
  {
    hide Insert;
  }

  lemma NeighborTimeoutShape(n: Node, nb: Addr, env: Env, k: Addr)
    ensures var n' := NeighborTimeout(n, nb, env);
            && n' == n.(table := n'.table, fib := n'.fib, repair := n'.repair)
            && (IsActive(n'.table, k) ==> IsActive(n.table, k))
  {
  }

  lemma RefreshOneActive(n: Node, j: Addr, env: Env, k: Addr)
    ensures IsActive(RefreshOne(n, j, env).table, k) ==> IsActive(n.table, k)
  {
    hide IdleTime, Dead, Kill;
    if j in n.table {
      KillActive(n, Dead(n.table, j), env.now, k);
    }
  }

  lemma KillActive(n: Node, dead: set<Addr>, now: int, k: Addr)
    ensures IsActive(Kill(n, dead, now).table, k) ==> IsActive(n.table, k)
  {
  }

  lemma {:induction false} RefreshAllActive(n: Node, ks: seq<Addr>, env: Env, k: Addr)
    ensures IsActive(RefreshAll(n, ks, env).table, k) ==> IsActive(n.table, k)
    decreases ks
  {
    hide RefreshOne, IsActive;
    if ks != [] {
      RefreshOneActive(n, ks[0], env, k);
      RefreshAllActive(RefreshOne(n, ks[0], env), ks[1..], env, k);
    }
  }

  lemma FirePreserves(n: Node, env: Env, k: Addr)
    requires n.tq.list != [] && n.tq.list[0].timeout <= env.now
    requires Backed(ViewOf(n, n.tq.list[0].what.data))
    ensures Preserves(ViewOf(n, k), ViewOf(FireHead(n, env), k))
  {
    hide FireHead, ViewOf, Preserves;
    if n.tq.list[0].what.kind.RreqTimer? {
      FireResend(n, env, k);
    } else if n.tq.list[0].what.kind.LrTimer? {
      FireLocalRepair(n, env, k);
    } else {
      FireOther(n, env, k);
    }
  }
  // ---- totals ----

  /** A new RREQ was sent, and is pending with no retries yet. */
  ghost predicate Sent(t: Totals, t': Totals) {
    && |t'.pending| == |t.pending| + 1 && t'.pending[..|t.pending|] == t.pending
    && t'.pending[|t.pending|].retries == 0
    && t' == t.(originated := t.originated + 1, pending := t'.pending)
  }

  lemma RefusalTotals(n: Node, d: Addr, found: bool, brd: bool)
    ensures TotalsOf(ReplyTo(n, d, found)) == TotalsOf(n)
    ensures TotalsOf(GenerateRERR(ReplyTo(n, d, found), d, false, brd)) == TotalsOf(n)
  {
    hide GenerateRERR, ResentIn, OriginatedIn, HandledIn;
    AppendTrace(n.trace, Reply(d, found, d in n.fib), d);
    GenerateRERRFrame(ReplyTo(n, d, found), d, false, brd);
  }

  lemma AgentRequestTotals(n: Node, d: Addr, src: Addr, tcp: bool, env: Env)
    ensures var t, t' := TotalsOf(n), TotalsOf(AgentRequest(n, d, src, tcp, env)); t' == t || Sent(t, t')
  {
    hide SendRREQ, DoLocalRepair, GenerateRERR, ReplyTo, ResetRebootTimer, ResentIn, OriginatedIn, HandledIn, Sent;
    var n0 := n.(trace := n.trace + [Request(d, src == n.ip)]);
    AppendTrace(n.trace, Request(d, src == n.ip), d);
    var n1 := n0.(tq := ResetRebootTimer(n0.tq, env.now));
    assert TotalsOf(n0) == TotalsOf(n) && TotalsOf(n1) == TotalsOf(n);
    hide TotalsOf;
    RefusalTotals(n1, d, false, true);
    RefusalTotals(n0, d, false, d !in n0.table);
    RefusalTotals(n0, d, true, false);
    SendRREQTotals(n0, d, tcp || env.junkG, env.now);
    DoLocalRepairTotals(n0, d, tcp, env.now);
  }

  lemma SendRREQTotals(n: Node, d: Addr, g: bool, now: int)
    ensures var t, t' := TotalsOf(n), TotalsOf(SendRREQ(n, d, g, now)); t' == t || Sent(t, t')
  {
    hide SendRREQ, Insert, ResentIn, OriginatedIn, HandledIn;
    if d == n.ip {
      SendToSelf(n, g, now);
    } else {
      var ttl, m := SendRREQShape(n, d, g, now);
      AppendTrace(n.trace, Originated(d), d);
    }
  }

  lemma DoLocalRepairTotals(n: Node, d: Addr, g: bool, now: int)
    ensures TotalsOf(DoLocalRepair(n, d, g, now)) == TotalsOf(n)
  {
    hide SetTimer;
  }

  /** The i-th pending entry was sent again, one ring wider. */
  ghost predicate SentAgain(t: Totals, t': Totals, i: nat) {
    && i < |t.pending| && |t'.pending| == |t.pending| && NextRing(t.pending[i]).retries <= RREQ_RETRIES
    && t'.pending == t.pending[i := t'.pending[i]]
    && t'.pending[i].retries == NextRing(t.pending[i]).retries && t'.pending[i].ttl == NextRing(t.pending[i]).ttl
    && t' == t.(resent := t.resent + 1, pending := t'.pending)
  }

  ghost predicate GaveUp(t: Totals, t': Totals, i: nat) {
    i < |t.pending| && t' == t.(pending := t.pending[..i] + t.pending[i + 1..])
  }

  ghost predicate Forgot(t: Totals, t': Totals, now: int) {
    t' == t.(fw := LiveFw(t.fw, now))
  }

  lemma HandleTotals(n: Node, j: Job, env: Env)
    ensures var t, t' := TotalsOf(n), TotalsOf(Handle(n, j, env));
            t' == t || Forgot(t, t', env.now) || exists i :: SentAgain(t, t', i) || GaveUp(t, t', i)
  {
    hide SetTimer, AddTimer, GenerateRERR, NeighborTimeout, RefreshAll, ResentIn, OriginatedIn, HandledIn, SendHello,
        ResendRREQ;
    var t, t' := TotalsOf(n), TotalsOf(Handle(n, j, env));
    match j.kind
    case RebootTimer => HelloShape(RebootDone(n), env.now);
    case RreqTimer => ResendTotals(n, j.data, env.now);
    case HelloTimer => HelloShape(n, env.now);
    case LrTimer => LRHandlerTotals(n, j.data, env.now);
    case PeriodicTimer =>
      var n1 := n.(tq := AddTimer(n.tq, env.now, PERIODIC_INTERVAL, Job(PeriodicTimer, 0)));
      RefreshAllFrame(n1, Keys(n1.table.Keys), env);
      assert Forgot(t, t', env.now);
    case RrepAckTimer =>
    case ActiveRouteTimer => NeighborTimeoutShape(n, j.data, env, 0);
  }

  lemma LRHandlerTotals(n: Node, d: Addr, now: int)
    ensures TotalsOf(LRHandler(n, d, now)) == TotalsOf(n)
  {
    hide ResentIn, OriginatedIn, HandledIn;
    AppendTrace(n.trace, Reply(d, false, d in n.fib), d);
  }

  lemma ResendTotals(n: Node, d: Addr, now: int)
    ensures var t, t' := TotalsOf(n), TotalsOf(ResendRREQ(n, d, now));
            t' == t || exists i :: SentAgain(t, t', i) || GaveUp(t, t', i)
  {
    hide SetTimer, ResentIn, OriginatedIn, HandledIn, NextRing;
    var t, t' := TotalsOf(n), TotalsOf(ResendRREQ(n, d, now));
    var i := FirstPending(n.pending, d);
    if i < |n.pending| {
      if NextRing(n.pending[i]).retries <= RREQ_RETRIES {
        ResendShape(n, d, now);
        hide ResendRREQ;
        AppendTrace(n.trace, Resent(d), d);
        assert SentAgain(t, t', i);
      } else {
        AppendTrace(n.trace, Reply(d, false, d in n.fib), d);
        assert GaveUp(t, t', i);
      }
    }
  }
}
