/**
 What the Local Agent gets for a request, and what goes out: the answer, the RREQ of the first ring,
 the rings after it, the RREQ of a local repair, or an error for those who still send this way.
 */
module Requests {
  import opened Base
  import opened Params
  import opened Timers
  import opened Node
  import opened Steps
  import opened Effects
  import opened Messages
  import R = Runs

  // ---- one request ----

  /** The answer that a request gets at once. */
  function AnswerNow(n: Node, d: Addr, src: Addr, now: int): Option<bool> {
    if n.reboot then Some(false)
    else if IsActive(n.table, d) && now < n.table[d].life then Some(true)
    else if src != n.ip && d !in n.repair then Some(false)
    else None
  }

  /** The first ring: two hops further than the destination last was, one hop for an unknown one. */
  function FirstRing(t: Table, d: Addr): (ring: int)
    ensures 1 <= ring
  {
    var h := if d !in t then 0 else if t[d].hop == 60 then t[d].lastHop else t[d].hop;
    if h == 0 then 1 else h + 2
  }

  function NewRreq(n: Node, d: Addr, g: bool): Rreq {
    Rreq(g, 0, U32(n.rreqId + 1), d, if d in n.table then n.table[d].seqNum else 0, n.ip, U32(n.localSeq + 1))
  }

  /** An error about d, to its precursors or to all. */
  function ErrorAbout(t: Table, d: Addr): Out {
    Out(if d in t && |t[d].prec| == 1 then Some(t[d].prec[0]) else None, 1,
        RerrMsg(Rerr(false, 1, [Unreach(d, if d in t then t[d].seqNum else 0)])))
  }

  /** The packets that a request sets off. */
  function RequestSends(n: Node, d: Addr, src: Addr, g: bool, now: int): seq<Out> {
    if n.reboot then
      if src == n.ip then [] else [ErrorAbout(n.table, d)]
    else if IsActive(n.table, d) && now < n.table[d].life then []
    else if src == n.ip then
      if d == n.ip then [] else [Out(None, FirstRing(n.table, d), RreqMsg(NewRreq(n, d, g)))]
    else if d in n.repair then
      if d in n.table && n.table[d].flag.Broken?
      then [Out(None, n.table[d].lastHop + 2, RreqMsg(NewRreq(n, d, g)))] else []
    else if d !in n.table || n.table[d].prec != [] then [ErrorAbout(n.table, d)]
    else []
  }

  lemma GenerateIs(n: Node, d: Addr, brd: bool)
    ensures GenerateRERR(n, d, false, brd).outbox
         == n.outbox + if brd || (d in n.table && n.table[d].prec != []) then [ErrorAbout(n.table, d)] else []
  {
  }

  lemma FirstSearchIs(n: Node, d: Addr, g: bool, now: int)
    requires d != n.ip
    ensures var n', ring := SendRREQ(n, d, g, now), FirstRing(n.table, d);
            && n'.outbox == n.outbox + [Out(None, ring, RreqMsg(NewRreq(n, d, g)))]
            && n'.trace == n.trace + [Originated(d)]
            && n'.pending == n.pending + [Pending(NewRreq(n, d, g), 0, ring)]
            && n'.tq == SetTimer(n.tq, now, 1000 * ring, Job(RreqTimer, d))
            && n'.rreqId == U32(n.rreqId + 1) && n'.localSeq == U32(n.localSeq + 1) && n'.fib == n.fib
            && n'.table == if d in n.table then n.table[d := n.table[d].(life := now + 52500)] else n.table
  {
    hide SetTimer;
    var t := if d in n.table then n.table[d := n.table[d].(life := now + PATH_TRAVERSAL_TIME)] else n.table;
    assert FirstTtl(t, d, now) == FirstRing(n.table, d);
  }

  lemma RepairSearchIs(n: Node, d: Addr, g: bool, now: int)
    requires d in n.table
    ensures var n', ring := DoLocalRepair(n, d, g, now), n.table[d].lastHop + 2;
            && n'.outbox == n.outbox + [Out(None, ring, RreqMsg(NewRreq(n, d, g)))]
            && n'.trace == n.trace && n'.tq == SetTimer(n.tq, now, 1000 * ring, Job(LrTimer, d))
            && n'.rreqId == U32(n.rreqId + 1) && n'.localSeq == U32(n.localSeq + 1)
  {
    hide SetTimer;
  }

  lemma NoSearch(n: Node, g: bool, now: int)
    ensures SendRREQ(n, n.ip, g, now) == n
  {
  }

  lemma RebootRequest(n: Node, d: Addr, src: Addr, tcp: bool, env: Env)
    requires n.reboot
    ensures var n' := AgentRequest(n, d, src, tcp, env);
            && n'.trace == n.trace + [Request(d, src == n.ip), Reply(d, false, d in n.fib)]
            && n'.outbox == n.outbox + if src == n.ip then [] else [ErrorAbout(n.table, d)]
  {
    hide GenerateRERR, ResetRebootTimer, ErrorAbout, SendRREQ, DoLocalRepair;
    var n0 := n.(trace := n.trace + [Request(d, src == n.ip)]);
    var n1 := ReplyTo(n0.(tq := ResetRebootTimer(n0.tq, env.now)), d, false);
    GenerateRERRFrame(n1, d, false, true);
    GenerateIs(n1, d, true);
  }

  lemma RefusedRequest(n: Node, d: Addr, src: Addr, tcp: bool, env: Env)
    requires !n.reboot && !FindActive(n.table, d, env.now) && src != n.ip && d !in n.repair
    ensures var n' := AgentRequest(n, d, src, tcp, env);
            && n'.trace == n.trace + [Request(d, false), Reply(d, false, d in n.fib)]
            && n'.outbox == n.outbox + if d !in n.table || n.table[d].prec != [] then [ErrorAbout(n.table, d)] else []
  {
    hide GenerateRERR, ResetRebootTimer, ErrorAbout, SendRREQ, DoLocalRepair;
    var n1 := ReplyTo(n.(trace := n.trace + [Request(d, src == n.ip)]), d, false);
    GenerateRERRFrame(n1, d, false, d !in n.table);
    GenerateIs(n1, d, d !in n.table);
  }

  lemma LocalRequest(n: Node, d: Addr, tcp: bool, env: Env)
    requires !n.reboot && !FindActive(n.table, d, env.now)
    ensures var n' := AgentRequest(n, d, n.ip, tcp, env);
            && n'.trace == n.trace + (if d == n.ip then [Request(d, true)] else [Request(d, true), Originated(d)])
            && n'.outbox == n.outbox + if d == n.ip then []
                                       else [Out(None, FirstRing(n.table, d), RreqMsg(NewRreq(n, d, tcp || env.junkG)))]
  {
    hide GenerateRERR, ResetRebootTimer, SendRREQ, DoLocalRepair, FirstRing, NewRreq;
    var n0 := n.(trace := n.trace + [Request(d, true)]);
    if d != n.ip {
      FirstSearchIs(n0, d, tcp || env.junkG, env.now);
      SameNew(n, n0, d);
      assert n0.trace + [Originated(d)] == n.trace + [Request(d, true), Originated(d)];
    } else {
      NoSearch(n0, tcp || env.junkG, env.now);
    }
  }

  lemma RepairRequest(n: Node, d: Addr, src: Addr, tcp: bool, env: Env)
    requires !n.reboot && !FindActive(n.table, d, env.now) && src != n.ip && d in n.repair
    ensures var n' := AgentRequest(n, d, src, tcp, env);
            && n'.trace == n.trace + [Request(d, false)]
            && n'.outbox == n.outbox + if d in n.table && n.table[d].flag.Broken?
                                       then [Out(None, n.table[d].lastHop + 2, RreqMsg(NewRreq(n, d, tcp)))] else []
  {
    hide GenerateRERR, ResetRebootTimer, SendRREQ, DoLocalRepair, NewRreq;
    var n0 := n.(trace := n.trace + [Request(d, false)]);
    if d in n.table {
      RepairSearchIs(n0, d, tcp, env.now);
      SameNew(n, n0, d);
    }
  }

  lemma FoundRequest(n: Node, d: Addr, src: Addr, tcp: bool, env: Env)
    requires !n.reboot && FindActive(n.table, d, env.now)
    ensures var n' := AgentRequest(n, d, src, tcp, env);
            && n'.trace == n.trace + [Request(d, src == n.ip), Reply(d, true, d in n.fib)] && n'.outbox == n.outbox
  {
  }

  lemma AnswersAppendTwo(trace: seq<Trace>, e: Trace, e': Trace)
    requires !e.Reply?
    ensures Answers(trace + [e]) == Answers(trace)
    ensures Answers(trace + [e, e']) == Answers(trace) + if e'.Reply? then [(e'.dst, e'.found)] else []
  {
    AnswersAppend(trace, e);
    AnswersAppend(trace + [e], e');
    assert trace + [e, e'] == trace + [e] + [e'];
  }

  /**
   The answer to a request: IP_FOUND exactly for a usable route outside reboot, IP_NOFOUND exactly
   during reboot or for a transit packet without a usable route or local repair, and none otherwise.
   */
  lemma {:induction false} RequestAnswered(n: Node, d: Addr, src: Addr, tcp: bool, env: Env)
    ensures var n', a := AgentRequest(n, d, src, tcp, env), AnswerNow(n, d, src, env.now);
            Answers(n'.trace) == Answers(n.trace) + if a.Some? then [(d, a.value)] else []
  {
    hide AgentRequest, Answers, FirstRing, ErrorAbout, NewRreq;
    AnswersAppendTwo(n.trace, Request(d, src == n.ip), Reply(d, false, d in n.fib));
    AnswersAppendTwo(n.trace, Request(d, src == n.ip), Reply(d, true, d in n.fib));
    AnswersAppendTwo(n.trace, Request(d, src == n.ip), Originated(d));
    if n.reboot {
      RebootRequest(n, d, src, tcp, env);
    } else if FindActive(n.table, d, env.now) {
      FoundRequest(n, d, src, tcp, env);
    } else if src == n.ip {
      LocalRequest(n, d, tcp, env);
    } else if d in n.repair {
      RepairRequest(n, d, src, tcp, env);
    } else {
      RefusedRequest(n, d, src, tcp, env);
    }
  }

  /** Exactly what a request sends. */
  lemma {:induction false} RequestSent(n: Node, d: Addr, src: Addr, tcp: bool, env: Env)
    ensures AgentRequest(n, d, src, tcp, env).outbox
         == n.outbox + RequestSends(n, d, src, if src == n.ip then tcp || env.junkG else tcp, env.now)
  {
    hide AgentRequest, FirstRing, ErrorAbout, NewRreq;
    if n.reboot {
      RebootRequest(n, d, src, tcp, env);
    } else if FindActive(n.table, d, env.now) {
      FoundRequest(n, d, src, tcp, env);
    } else if src == n.ip {
      LocalRequest(n, d, tcp, env);
    } else if d in n.repair {
      RepairRequest(n, d, src, tcp, env);
    } else {
      RefusedRequest(n, d, src, tcp, env);
    }
  }

  lemma SameNew(n: Node, n': Node, d: Addr)
    requires n'.table == n.table && n'.rreqId == n.rreqId && n'.localSeq == n.localSeq && n'.ip == n.ip
    ensures forall g :: NewRreq(n', d, g) == NewRreq(n, d, g)
  {
  }

  /**
   Over every run from boot: after reboot a request for a destination is answered with IP_FOUND if and
   only if the kernel has a route to it whose entry has not expired.
   */
  lemma {:induction false} KernelRouteIsFound(
    ip: Addr, helloFlag: bool, now: int, ms: seq<R.Moment>, n: Node, d: Addr, src: Addr, tcp: bool, env: Env)
    requires R.Run(R.Boot(ip, helloFlag, now), ms, n) && !n.reboot
    ensures d in n.fib ==> d in n.table
    ensures d in n.fib && env.now < n.table[d].life
            <==> Answers(AgentRequest(n, d, src, tcp, env).trace) == Answers(n.trace) + [(d, true)]
  {
    R.RunInvariant(ip, helloFlag, now, ms, n);
    RequestAnswered(n, d, src, tcp, env);
    hide R.Run, R.Boot, AgentRequest, Answers, R.TimersOk;
    assert d in n.fib.Keys <==> d in ActiveKeys(n.table);
    var a := Answers(n.trace);
    assert a + [(d, false)] != a + [(d, true)] by {
      assert (a + [(d, false)])[|a|] != (a + [(d, true)])[|a|];
    }
  }

  // ---- the rings of a search ----

  /** All rings of a search: wider by two hops up to six, and then the whole network twice. */
  function Rings(first: int): (l: seq<int>)
    requires 1 <= first
    ensures 3 <= |l| && l[0] == first && forall r :: r in l ==> 1 <= r
    decreases 6 - first
  {
    if first >= 5 then [first, 35, 35] else [first] + Rings(first + 2)
  }

  /** The pending entry after k more rings. */
  function Later(p: Pending, k: nat): Pending {
    if k == 0 then p else NextRing(Later(p, k - 1))
  }

  lemma LaterShift(p: Pending, k: nat)
    ensures Later(p, k + 1) == Later(NextRing(p), k)
  {
    if k > 0 {
      LaterShift(p, k - 1);
    }
  }

  lemma LaterRings(p: Pending, k: nat)
    requires p.retries == 0
    ensures k < |Rings(p.ttl)| ==> Later(p, k).ttl == Rings(p.ttl)[k] && Later(p, k).retries <= RREQ_RETRIES
    ensures k == |Rings(p.ttl)| ==> Later(p, k).retries > RREQ_RETRIES
    ensures Later(p, k).rreq == p.rreq
    decreases 6 - p.ttl, k
  {
    hide NextRing;
    if k > 0 {
      NextRingIs(p);
      LaterShift(p, k - 1);
      if p.ttl < 5 {
        LaterRings(NextRing(p), k - 1);
      } else {
        LastRings(p, k);
      }
    }
  }

  lemma NextRingIs(p: Pending)
    ensures NextRing(p).rreq == p.rreq
    ensures p.ttl < 5 ==> NextRing(p).ttl == p.ttl + 2 && NextRing(p).retries == p.retries
    ensures p.ttl >= 5 ==> NextRing(p).ttl == 35 && NextRing(p).retries == p.retries + 1
  {
  }

  lemma {:induction false} LastRings(p: Pending, k: nat)
    requires 5 <= p.ttl && p.retries == 0 && 1 <= k
    ensures Later(p, k).ttl == 35 && Later(p, k).retries == k && Later(p, k).rreq == p.rreq
  {
    hide NextRing;
    if k > 1 {
      LastRings(p, k - 1);
    }
    NextRingIs(Later(p, k - 1));
  }

  /** A RREQ of the search for d that starts from n: the k-th after the first. */
  function RingCopy(n: Node, p: Pending, k: nat): Rreq {
    p.rreq.(id := U32(n.rreqId + k), srcSeq := U32(n.localSeq + k),
            destSeq := if p.rreq.dest in n.table then n.table[p.rreq.dest].seqNum else 0)
  }

  /** The packets of the first k firings of the RREQ timer. */
  function RingPackets(n: Node, p: Pending, k: nat): seq<Out> {
    if k == 0 then []
    else RingPackets(n, p, k - 1) + [Out(None, Later(p, k).ttl, RreqMsg(RingCopy(n, p, k)))]
  }

  lemma ResendIs(n: Node, d: Addr, now: int, i: nat)
    requires i == FirstPending(n.pending, d) < |n.pending| && NextRing(n.pending[i]).retries <= RREQ_RETRIES
    ensures var n', p := ResendRREQ(n, d, now), NextRing(n.pending[i]);
            var m := RingCopy(n, p, 1);
            && n' == n.(outbox := n.outbox + [Out(None, p.ttl, RreqMsg(m))], needHello := false,
                        rreqId := U32(n.rreqId + 1), localSeq := U32(n.localSeq + 1), trace := n.trace + [Resent(d)],
                        pending := n.pending[i := p.(rreq := m)],
                        tq := SetTimer(n.tq, now, 1000 * p.ttl, Job(RreqTimer, d)))
  {
    hide SetTimer, NextRing;
    NextRingIs(n.pending[i]);
  }

  /** n' is n after k firings of the RREQ timer of the i-th pending entry, p. */
  ghost predicate Ringed(n: Node, n': Node, i: nat, p: Pending, k: nat) {
    && n'.table == n.table && n'.fib == n.fib && n'.ip == n.ip
    && n'.rreqId == U32(n.rreqId + k) && n'.localSeq == U32(n.localSeq + k)
    && i < |n.pending|
    && n'.pending == n.pending[i := Later(p, k).(rreq := if k == 0 then p.rreq else RingCopy(n, p, k))]
    && n'.outbox == n.outbox + RingPackets(n, p, k)
    && Answers(n'.trace) == Answers(n.trace)
  }

  lemma SamePlace(l: seq<Pending>, i: nat, p: Pending, d: Addr)
    requires i == FirstPending(l, d) < |l| && p.rreq.dest == d
    ensures FirstPending(l[i := p], d) == i
  {
    hide FirstPending;
    var l' := l[i := p];
    assert forall j :: 0 <= j < i ==> l'[j] == l[j];
    assert l'[i].rreq.dest == d;
  }

  lemma RingStep(n: Node, n1: Node, d: Addr, i: nat, p: Pending, k: nat, now: int)
    requires 1 <= k && p.rreq.dest == d && Later(p, k).retries <= RREQ_RETRIES && Later(p, k).rreq == p.rreq
    requires i == FirstPending(n.pending, d) < |n.pending| && Ringed(n, n1, i, p, k - 1)
    ensures Ringed(n, ResendRREQ(n1, d, now), i, p, k)
    ensures ResendRREQ(n1, d, now).tq == SetTimer(n1.tq, now, 1000 * Later(p, k).ttl, Job(RreqTimer, d))
  {
    hide SetTimer, FirstPending, ResendRREQ, NextRing, Answers;
    var p1 := n1.pending[i];
    SamePlace(n.pending, i, p1, d);
    SameNext(Later(p, k - 1), p1);
    assert NextRing(p1) == Later(p, k).(rreq := p1.rreq);
    ResendIs(n1, d, now, i);
    AnswersAppend(n1.trace, Resent(d));
    assert RingCopy(n1, NextRing(p1), 1) == RingCopy(n, p, k) by {
      SumWraps(n.rreqId, k);
      SumWraps(n.localSeq, k);
    }
  }

  lemma SumWraps(x: u32, k: nat)
    requires 1 <= k
    ensures U32(U32(x + (k - 1)) + 1) == U32(x + k)
  {
  }

  /** Firing by firing: a fresh RREQ with the next ring. */
  lemma {:induction false} RingsFire(n: Node, d: Addr, i: nat, nows: seq<int>)
    requires i == FirstPending(n.pending, d) < |n.pending| && n.pending[i].retries == 0
    requires |nows| < |Rings(n.pending[i].ttl)|
    ensures var n', k := R.Firings(n, d, nows), |nows|;
            && Ringed(n, n', i, n.pending[i], k)
            && (1 <= k ==> n'.tq == SetTimer(R.Firings(n, d, nows[..k - 1]).tq, nows[k - 1],
                                             1000 * Rings(n.pending[i].ttl)[k], Job(RreqTimer, d)))
  {
    hide SetTimer, FirstPending, ResendRREQ, NextRing, Answers, Rings, Ringed;
    var p, k := n.pending[i], |nows|;
    LaterRings(p, k);
    if k == 0 {
      NoneFired(n, i, p);
    } else {
      RingsFire(n, d, i, nows[..k - 1]);
      RingStep(n, R.Firings(n, d, nows[..k - 1]), d, i, p, k, nows[k - 1]);
    }
  }

  lemma NoneFired(n: Node, i: nat, p: Pending)
    requires i < |n.pending| && n.pending[i] == p
    ensures Ringed(n, n, i, p, 0)
  {
    assert n.pending[i := p] == n.pending;
  }

  lemma SameNext(p: Pending, p': Pending)
    requires p'.ttl == p.ttl && p'.retries == p.retries
    ensures NextRing(p') == NextRing(p).(rreq := p'.rreq)
  {
  }

  lemma GivesUp(n: Node, d: Addr, now: int, i: nat)
    requires i == FirstPending(n.pending, d) < |n.pending| && NextRing(n.pending[i]).retries > RREQ_RETRIES
    ensures var n' := ResendRREQ(n, d, now);
            && n'.outbox == n.outbox && n'.pending == n.pending[..i] + n.pending[i + 1..] && n'.tq == n.tq
            && Answers(n'.trace) == Answers(n.trace) + [(d, false)]
  {
    hide NextRing, Answers;
    AnswersAppend(n.trace, Reply(d, false, d in n.fib));
  }

  /** The first k packets of a search that starts with m: one RREQ for every ring, each with new numbers. */
  function SearchPackets(n: Node, m: Rreq, rings: seq<int>, k: nat): seq<Out>
    requires k <= |rings|
  {
    if k == 0 then []
    else SearchPackets(n, m, rings, k - 1)
         + [Out(None, rings[k - 1], RreqMsg(m.(id := U32(n.rreqId + k), srcSeq := U32(n.localSeq + k))))]
  }

  lemma {:induction false} SamePackets(n: Node, n0: Node, p: Pending, k: nat)
    requires p.retries == 0 && k < |Rings(p.ttl)|
    requires n0.rreqId == U32(n.rreqId + 1) == p.rreq.id && n0.localSeq == U32(n.localSeq + 1) == p.rreq.srcSeq
    requires p.rreq.destSeq == if p.rreq.dest in n0.table then n0.table[p.rreq.dest].seqNum else 0
    ensures [Out(None, p.ttl, RreqMsg(p.rreq))] + RingPackets(n0, p, k) == SearchPackets(n, p.rreq, Rings(p.ttl), k + 1)
  {
    hide Rings, Later;
    if k > 0 {
      SamePackets(n, n0, p, k - 1);
      LaterRings(p, k);
      LaterSum(n.rreqId, k);
      LaterSum(n.localSeq, k);
    } else {
      assert SearchPackets(n, p.rreq, Rings(p.ttl), 0) == [];
    }
  }

  lemma LaterSum(x: u32, k: nat)
    ensures U32(U32(x + 1) + k) == U32(x + (k + 1))
  {
  }

  lemma StartedSearch(n: Node, d: Addr, tcp: bool, env: Env)
    requires !n.reboot && !FindActive(n.table, d, env.now) && d != n.ip
    ensures var n0, m := AgentRequest(n, d, n.ip, tcp, env), NewRreq(n, d, tcp || env.junkG);
            var ring := FirstRing(n.table, d);
            && n0.pending == n.pending + [Pending(m, 0, ring)]
            && n0.tq == SetTimer(n.tq, env.now, 1000 * ring, Job(RreqTimer, d))
            && n0.rreqId == m.id && n0.localSeq == m.srcSeq
            && m.destSeq == (if d in n0.table then n0.table[d].seqNum else 0)
            && n0.outbox == n.outbox + [Out(None, ring, RreqMsg(m))] && Answers(n0.trace) == Answers(n.trace)
  {
    hide SetTimer, FirstRing, Answers, GenerateRERR, ResetRebootTimer, SendRREQ, DoLocalRepair;
    var n1 := n.(trace := n.trace + [Request(d, true)]);
    FirstSearchIs(n1, d, tcp || env.junkG, env.now);
    RequestAnswered(n, d, n.ip, tcp, env);
    SameNew(n, n1, d);
  }

  lemma PendingLast(l: seq<Pending>, p: Pending)
    requires FirstPending(l, p.rreq.dest) == |l|
    ensures FirstPending(l + [p], p.rreq.dest) == |l|
  {
    assert forall j :: 0 <= j < |l| ==> (l + [p])[j] == l[j];
    assert (l + [p])[|l|].rreq.dest == p.rreq.dest;
  }

  /**
   A whole search. A local request for a destination that is not in use or pending sends a RREQ with
   the first ring at once and, while nobody answers, one for each further ring whenever its timer
   fires, a second after the last one for every hop of its ring; after the last ring it is refused.
   */
  lemma {:induction false} SearchLaw(n: Node, d: Addr, tcp: bool, env: Env, nows: seq<int>, k: nat)
    requires !n.reboot && !FindActive(n.table, d, env.now) && d != n.ip
    requires FirstPending(n.pending, d) == |n.pending| && k <= |nows| == |Rings(FirstRing(n.table, d))|
    ensures var n0, m := AgentRequest(n, d, n.ip, tcp, env), NewRreq(n, d, tcp || env.junkG);
            var rings := Rings(FirstRing(n.table, d));
            var n' := R.Firings(n0, d, nows[..k]);
            if k < |rings| then
              && n'.outbox == n.outbox + SearchPackets(n, m, rings, k + 1) && Answers(n'.trace) == Answers(n.trace)
              && n'.tq == if k == 0 then SetTimer(n.tq, env.now, 1000 * rings[0], Job(RreqTimer, d))
                          else SetTimer(R.Firings(n0, d, nows[..k - 1]).tq, nows[k - 1], 1000 * rings[k],
                                        Job(RreqTimer, d))
            else
              && n'.outbox == n.outbox + SearchPackets(n, m, rings, k) && n'.pending == n.pending
              && Answers(n'.trace) == Answers(n.trace) + [(d, false)]
  {
    hide FirstPending, AgentRequest, ResendRREQ, NextRing, Answers, FirstRing, Rings, SearchPackets, SetTimer, NewRreq;
    var n0 := AgentRequest(n, d, n.ip, tcp, env);
    var p, i := Pending(NewRreq(n, d, tcp || env.junkG), 0, FirstRing(n.table, d)), |n.pending|;
    StartedSearch(n, d, tcp, env);
    NewDest(n, d, tcp || env.junkG);
    PendingLast(n.pending, p);
    SearchSteps(n, n0, d, p, nows, k);
  }

  lemma NewDest(n: Node, d: Addr, g: bool)
    ensures var m := NewRreq(n, d, g); m.dest == d && m.id == U32(n.rreqId + 1) && m.srcSeq == U32(n.localSeq + 1)
  {
  }

  lemma SearchSteps(n: Node, n0: Node, d: Addr, p: Pending, nows: seq<int>, k: nat)
    requires k <= |nows| == |Rings(p.ttl)| && p.rreq.dest == d && p.retries == 0
    requires n0.pending == n.pending + [p] && FirstPending(n0.pending, d) == |n.pending|
    requires n0.rreqId == U32(n.rreqId + 1) == p.rreq.id && n0.localSeq == U32(n.localSeq + 1) == p.rreq.srcSeq
    requires p.rreq.destSeq == if d in n0.table then n0.table[d].seqNum else 0
    requires n0.outbox == n.outbox + [Out(None, p.ttl, RreqMsg(p.rreq))] && Answers(n0.trace) == Answers(n.trace)
    ensures var n', rings := R.Firings(n0, d, nows[..k]), Rings(p.ttl);
            if k < |rings| then
              && n'.outbox == n.outbox + SearchPackets(n, p.rreq, rings, k + 1) && Answers(n'.trace) == Answers(n.trace)
              && (1 <= k ==> n'.tq == SetTimer(R.Firings(n0, d, nows[..k - 1]).tq, nows[k - 1], 1000 * rings[k],
                                               Job(RreqTimer, d)))
            else
              && n'.outbox == n.outbox + SearchPackets(n, p.rreq, rings, k) && n'.pending == n.pending
              && Answers(n'.trace) == Answers(n.trace) + [(d, false)]
  {
    hide FirstPending, ResendRREQ, NextRing, Answers, Rings, SearchPackets, SetTimer, RingPackets;
    var i, j := |n.pending|, if k < |nows| then k else k - 1;
    RingsFire(n0, d, i, nows[..j]);
    SamePackets(n, n0, p, j);
    if k < |nows| {
      assert 1 <= k ==> nows[..k][..k - 1] == nows[..k - 1];
    } else {
      assert nows[..k][..j] == nows[..j];
      var n1 := R.Firings(n0, d, nows[..j]);
      LaterRings(p, k);
      LaterRings(p, j);
      SamePlace(n0.pending, i, n1.pending[i], d);
      SameNext(Later(p, j), n1.pending[i]);
      GivesUp(n1, d, nows[j], i);
    }
  }
}
