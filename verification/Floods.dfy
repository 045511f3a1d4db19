/**
 How far a flood goes and how often: every copy of a RREQ in any network has used up exactly the hops
 it has travelled, and a node sends at most one copy of one flood per PATH_TRAVERSAL_TIME.
 */
module Floods {
  import opened Base
  import opened Params
  import opened Timers
  import opened Node
  import opened Steps
  import opened Effects
  import opened Schedule
  import opened Discoveries
  import opened Runs
  import Discovery

  /** A RREQ of the flood that src started under id. */
  predicate IsCopy(msg: Msg, src: Addr, id: u32) {
    msg.RreqMsg? && msg.rreq.src == src && msg.rreq.id == id
  }

  function CopiesOf(outs: seq<Out>, src: Addr, id: u32): nat {
    if outs == [] then 0
    else CopiesOf(outs[..|outs| - 1], src, id) + if IsCopy(outs[|outs| - 1].msg, src, id) then 1 else 0
  }

  function HandledOf(handled: seq<Trace>, src: Addr, id: u32): nat {
    if handled == [] then 0
    else
      var e := handled[|handled| - 1];
      HandledOf(handled[..|handled| - 1], src, id) + if e.Handled? && e.src == src && e.id == id then 1 else 0
  }

  // ---- what a step sends ----

  /** What waits for a RREP was asked for by this node. */
  ghost predicate OwnPending(n: Node) {
    forall i :: 0 <= i < |n.pending| ==> n.pending[i].rreq.src == n.ip
  }

  /** The outs were only added to, and every RREQ added satisfies own. */
  ghost predicate Adds(outs: seq<Out>, outs': seq<Out>, ip: Addr) {
    && |outs| <= |outs'| && outs'[..|outs|] == outs
    && forall i :: |outs| <= i < |outs'| && outs'[i].msg.RreqMsg? ==> outs'[i].msg.rreq.src == ip
  }

  /** From n to n' no RREQ but the node's own went out. */
  ghost predicate OwnOnly(n: Node, n': Node) {
    n'.ip == n.ip && (OwnPending(n) ==> OwnPending(n') && Adds(n.outbox, n'.outbox, n.ip))
  }

  lemma AddsTrans(a: seq<Out>, b: seq<Out>, c: seq<Out>, ip: Addr)
    requires Adds(a, b, ip) && Adds(b, c, ip)
    ensures Adds(a, c, ip)
  {
  }

  lemma OwnTrans(a: Node, b: Node, c: Node)
    requires OwnOnly(a, b) && OwnOnly(b, c)
    ensures OwnOnly(a, c)
  {
    hide Adds;
    if OwnPending(a) {
      AddsTrans(a.outbox, b.outbox, c.outbox, a.ip);
    }
  }

  lemma OwnSame(n: Node, n': Node)
    requires n'.ip == n.ip && n'.pending == n.pending && n'.outbox == n.outbox
    ensures OwnOnly(n, n')
  {
  }

  lemma SendOwn(n: Node, to: Option<Addr>, ttl: int, msg: Msg)
    requires msg.RreqMsg? ==> OwnPending(n) ==> msg.rreq.src == n.ip
    ensures OwnOnly(n, Send(n, to, ttl, msg))
  {
  }

  lemma GenerateOwn(n: Node, dst: Addr, nFlag: bool, brd: bool)
    ensures OwnOnly(n, GenerateRERR(n, dst, nFlag, brd))
  {
    hide Send;
    var cnt := PrecCount(n.table, dst);
    SendOwn(n, if cnt == 1 then Some(n.table[dst].prec[0]) else None, 1,
            RerrMsg(Rerr(nFlag, 1, [Unreach(dst, SeqOf(n.table, dst))])));
    hide OwnOnly;
    OwnSame(n, n);
  }

  lemma RouteUpdateOwn(n: Node, dst: Addr, seqNum: u32, hop: int, nhop: Addr, life: int, keep: bool, now: int)
    ensures OwnOnly(n, RouteUpdate(n, dst, seqNum, hop, nhop, life, keep, now))
  {
    hide GenerateRERR, RouteTable, Rewrites, HasDiscovery, OwnOnly;
    var n1 := n.(table := RouteTable(n.table, dst, seqNum, hop, nhop, life, keep),
                 fib := if Rewrites(n.table, dst, seqNum, hop, nhop) then n.fib[dst := nhop] else n.fib);
    var n3 := EndDiscovery(ReplyTo(n1, dst, true), dst, now);
    OwnSame(n, n3);
    GenerateOwn(n3, dst, true, false);
    OwnTrans(n, n3, GenerateRERR(n3, dst, true, false));
  }

  lemma NeighborUpdateOwn(n: Node, nb: Addr, src: Addr, seqNum: u32, life: int, now: int)
    ensures OwnOnly(n, NeighborUpdate(n, nb, src, seqNum, life, now))
  {
    hide NeighborUpdate;
    NeighborUpdateEffect(n, nb, src, seqNum, life, now);
    OwnSame(n, NeighborUpdate(n, nb, src, seqNum, life, now));
  }

  lemma RecvRREQOwn(n: Node, from: Addr, m: Rreq, now: int)
    ensures OwnOnly(n, RecvRREQ(n, from, m, now).0)
  {
    hide NeighborUpdate, RouteUpdate, RecvRREQ, OwnOnly;
    var s := if m.src == from then m.srcSeq else 0;
    var n1 := NeighborUpdate(n, from, m.src, s, now + NEIGHBOR_LIFE, now);
    var n2 := n1.(fw := n1.fw[(m.src, m.id) := now + PATH_TRAVERSAL_TIME],
                  trace := n1.trace + [Handled(m.src, m.id, now)]);
    var n3 := if m.src != from then ReverseRouteUpdate(n2, from, m, now) else n2;
    var n' := RecvRREQ(n, from, m, now).0;
    RecvRREQShape(n, from, m, now);
    NeighborUpdateOwn(n, from, m.src, s, now + NEIGHBOR_LIFE, now);
    OwnSame(n1, n2);
    RouteUpdateOwn(n2, m.src, m.srcSeq, m.hop + 1, from, ReverseNew(n2.table, m, now), true, now);
    OwnSame(n2, n2);
    OwnSame(n, n);
    OwnTrans(n1, n2, n3);
    OwnTrans(n, n1, n3);
    OwnSame(n3, n3.(localSeq := n'.localSeq));
    OwnTrans(n, n3, n3.(localSeq := n'.localSeq));
  }

  lemma UnicastOwn(n: Node, toward: Addr, m: Rrep, now: int)
    ensures OwnOnly(n, Unicast(n, toward, m, now))
  {
    hide Unicast;
    UnicastEffect(n, toward, m, now);
  }

  lemma AnswerOwn(n: Node, from: Addr, m: Rreq, env: Env)
    ensures OwnOnly(n, AnswerRREQ(n, from, m, env))
  {
    hide CreateRREP, CreateGRREP, Unicast, OwnOnly;
    CreateRREPCores(n, from, m, env);
    var (n1, rrep) := CreateRREP(n, from, m, env);
    OwnSame(n, n1);
    UnicastOwn(n1, m.src, rrep, env.now);
    var n2 := Unicast(n1, m.src, rrep, env.now);
    OwnTrans(n, n1, n2);
    var grrep := CreateGRREP(n2, m, env);
    UnicastOwn(n2, m.dest, grrep, env.now);
    OwnTrans(n, n2, Unicast(n2, m.dest, grrep, env.now));
  }

  /** m is sent on by a node that had not handled its flood, and remembers it now. */
  ghost predicate Forwards(n: Node, n': Node, ttl: int, m: Rreq, now: int) {
    exists mid: Node, m': Rreq ::
      && OwnOnly(n, mid) && n' == Send(mid, None, ttl, RreqMsg(m')) && 0 < ttl
      && m' == m.(destSeq := m'.destSeq, hop := U8(m.hop + 1)) && m.src != n.ip
      && (m.src, m.id) !in n.fw && n'.fw == n.fw[(m.src, m.id) := now + PATH_TRAVERSAL_TIME]
  }

  lemma ForwardVerdict(n: Node, from: Addr, m: Rreq, now: int)
    ensures var (n1, m1, v) := RecvRREQ(n, from, m, now);
            v.FwdRreq? ==>
              && m1 == m.(destSeq := m1.destSeq, hop := U8(m.hop + 1)) && m.src != n.ip
              && (m.src, m.id) !in n.fw && n1.fw == n.fw[(m.src, m.id) := now + PATH_TRAVERSAL_TIME]
  {
    hide NeighborUpdate, RouteUpdate, NeighborTable, RouteTable;
    var s := if m.src == from then m.srcSeq else 0;
    var life := now + NEIGHBOR_LIFE;
    NeighborUpdateEffect(n, from, m.src, s, life, now);
    var n1 := NeighborUpdate(n, from, m.src, s, life, now);
    var n2 := n1.(fw := n1.fw[(m.src, m.id) := now + PATH_TRAVERSAL_TIME],
                  trace := n1.trace + [Handled(m.src, m.id, now)]);
    RouteUpdateEffect(n2, m.src, m.srcSeq, m.hop + 1, from, ReverseNew(n2.table, m, now), true, now);
  }

  lemma ProcessRREQSends(n: Node, from: Addr, ttl: int, m: Rreq, env: Env)
    ensures var n' := ProcessRREQ(n, from, ttl, m, env); OwnOnly(n, n') || Forwards(n, n', ttl, m, env.now)
  {
    hide RebootRREQ, RecvRREQ, AnswerRREQ, OwnOnly;
    var n' := ProcessRREQ(n, from, ttl, m, env);
    if n.reboot {
      RebootRREQFrame(n, from, m, env.now);
      OwnSame(n, n');
    } else {
      var (n1, m1, v) := RecvRREQ(n, from, m, env.now);
      RecvRREQOwn(n, from, m, env.now);
      ForwardVerdict(n, from, m, env.now);
      AnswerOwn(n1, from, m, env);
      if v.GenRrep? {
        OwnTrans(n, n1, n');
      }
    }
  }

  lemma ProcessRREPOwn(n: Node, from: Addr, m: Rrep, env: Env)
    ensures OwnOnly(n, ProcessRREP(n, from, m, env))
  {
    hide RebootRREP, RecvRREP, NeighborUpdate, RouteUpdate, Unicast, OwnOnly;
    if n.reboot {
      RebootRREPFrame(n, from, m, env.now);
      OwnSame(n, RebootRREP(n, from, m, env.now));
    } else {
      var s := if m.dest == from then m.destSeq else 0;
      var n1 := NeighborUpdate(n, from, m.src, s, env.now + NEIGHBOR_LIFE, env.now);
      var n2 := if m.dest != from then ForwardRouteUpdate(n1, from, m, env.now) else n1;
      var (n3, m', _) := RecvRREP(n, from, m, env.now);
      RecvRREPShape(n, from, m, env.now);
      NeighborUpdateOwn(n, from, m.src, s, env.now + NEIGHBOR_LIFE, env.now);
      RouteUpdateOwn(n1, m.dest, m.destSeq, m.hop + 1, from, env.now + m.life, false, env.now);
      OwnSame(n1, n1);
      OwnTrans(n, n1, n2);
      OwnSame(n2, n3);
      OwnTrans(n, n2, n3);
      UnicastOwn(n3, m.src, m', env.now);
      OwnTrans(n, n3, Unicast(n3, m.src, m', env.now));
    }
  }

  lemma ForwardRERROwn(n: Node, from: Addr, m: Rerr, now: int)
    ensures OwnOnly(n, ForwardRERR(n, from, m, now))
  {
    hide UpdateValid, NewDests, HasPrec, Send, OwnOnly;
    var n1 := UpdateValid(n, m.dests, from, now);
    UpdateValidFrame(n, m.dests, from, now);
    OwnSame(n, n1);
    var lost := NewDests(n, m.dests, from, now);
    SendOwn(n1, None, 1, RerrMsg(Rerr(m.nFlag, U8(|lost|), lost)));
    OwnTrans(n, n1, Send(n1, None, 1, RerrMsg(Rerr(m.nFlag, U8(|lost|), lost))));
  }

  lemma LocalRepairRERROwn(n: Node, from: Addr, m: Rerr, now: int)
    ensures OwnOnly(n, LocalRepairRERR(n, from, m, now))
  {
    hide GenerateRERR, OwnOnly;
    OwnSame(n, n);
    if |m.dests| > 0 && m.dests[0].dest in n.table {
      var d := m.dests[0].dest;
      var n1 := n.(table := n.table[d := n.table[d].(seqNum := m.dests[0].seqNum)]);
      OwnSame(n, n1);
      GenerateOwn(n1, d, true, false);
      OwnTrans(n, n1, GenerateRERR(n1, d, true, false));
    }
  }

  lemma ProcessRERROwn(n: Node, from: Addr, m: Rerr, env: Env)
    ensures OwnOnly(n, ProcessRERR(n, from, m, env))
  {
    hide NeighborUpdate, NeighborTable, UpdateInvalid, UpdateValid, ForwardRERR, LocalRepairRERR, OwnOnly;
    var life := env.now + NEIGHBOR_LIFE;
    if n.reboot {
      var n1 := n.(table := UpdateInvalid(NeighborTable(n.table, from, 0, life), m.dests));
      UpdateValidFrame(n1, m.dests, from, env.now);
      OwnSame(n, UpdateValid(n1, m.dests, from, env.now));
    } else {
      var n1 := NeighborUpdate(n, from, from, 0, life, env.now);
      var n2 := n1.(table := UpdateInvalid(n1.table, m.dests));
      NeighborUpdateOwn(n, from, from, 0, life, env.now);
      OwnSame(n1, n2);
      OwnTrans(n, n1, n2);
      LocalRepairRERROwn(n2, from, m, env.now);
      ForwardRERROwn(n2, from, m, env.now);
      OwnTrans(n, n2, if m.nFlag then LocalRepairRERR(n2, from, m, env.now) else ForwardRERR(n2, from, m, env.now));
    }
  }

  // ---- requests and timers ----

  lemma SendRREQOwn(n: Node, d: Addr, g: bool, now: int)
    ensures OwnOnly(n, SendRREQ(n, d, g, now)) && OwnOnly(n, DoLocalRepair(n, d, g, now))
  {
    hide SetTimer, GetTTL;
  }

  lemma ReplyOwn(n: Node, d: Addr, found: bool)
    ensures OwnOnly(n, ReplyTo(n, d, found))
  {
  }

  lemma AgentRequestOwn(n: Node, d: Addr, src: Addr, tcp: bool, env: Env)
    ensures OwnOnly(n, AgentRequest(n, d, src, tcp, env))
  {
    hide SendRREQ, DoLocalRepair, GenerateRERR, ReplyTo, ResetRebootTimer, OwnOnly;
    var n0 := n.(trace := n.trace + [Request(d, src == n.ip)]);
    var n1 := n0.(tq := ResetRebootTimer(n0.tq, env.now));
    OwnSame(n, n0);
    OwnSame(n, n1);
    ReplyOwn(n0, d, true);
    OwnTrans(n, n0, ReplyTo(n0, d, true));
    ReplyOwn(n0, d, false);
    OwnTrans(n, n0, ReplyTo(n0, d, false));
    ReplyOwn(n1, d, false);
    OwnTrans(n, n1, ReplyTo(n1, d, false));
    GenerateOwn(ReplyTo(n0, d, false), d, false, d !in n0.table);
    OwnTrans(n, ReplyTo(n0, d, false), GenerateRERR(ReplyTo(n0, d, false), d, false, d !in n0.table));
    GenerateOwn(ReplyTo(n1, d, false), d, false, true);
    OwnTrans(n, ReplyTo(n1, d, false), GenerateRERR(ReplyTo(n1, d, false), d, false, true));
    SendRREQOwn(n0, d, tcp || env.junkG, env.now);
    OwnTrans(n, n0, SendRREQ(n0, d, tcp || env.junkG, env.now));
    SendRREQOwn(n0, d, tcp, env.now);
    OwnTrans(n, n0, DoLocalRepair(n0, d, tcp, env.now));
  }

  lemma ResendOwn(n: Node, d: Addr, now: int)
    ensures OwnOnly(n, ResendRREQ(n, d, now))
  {
    hide SetTimer, NextRing, Send, OwnOnly;
    var i := FirstPending(n.pending, d);
    if i < |n.pending| {
      var p := NextRing(n.pending[i]);
      NextRingDest(n.pending[i]);
      var m := p.rreq.(id := U32(n.rreqId + 1), destSeq := SeqOf(n.table, d), srcSeq := U32(n.localSeq + 1));
      PendingOwn(n, i, p.(rreq := m));
      var given := ReplyTo(n.(pending := n.pending[..i] + n.pending[i + 1..]), d, false);
      OwnSame(n.(pending := n.pending[..i] + n.pending[i + 1..]), given);
      OwnTrans(n, n.(pending := n.pending[..i] + n.pending[i + 1..]), given);
      var n1 := n.(rreqId := U32(n.rreqId + 1), localSeq := U32(n.localSeq + 1),
                   pending := n.pending[i := p.(rreq := m)], trace := n.trace + [Resent(d)]);
      var n2 := SetRREQTimer(n1, d, p.ttl, now);
      OwnSame(n.(pending := n1.pending), n2);
      OwnTrans(n, n.(pending := n1.pending), n2);
      assert OwnPending(n2) ==> n2.pending[i].rreq.src == n2.ip;
      SendOwn(n2, None, p.ttl, RreqMsg(m));
      OwnTrans(n, n2, Send(n2, None, p.ttl, RreqMsg(m)));
    } else {
      OwnSame(n, n);
    }
  }

  lemma PendingOwn(n: Node, i: nat, p: Pending)
    requires i < |n.pending| && p.rreq.src == n.pending[i].rreq.src
    ensures OwnOnly(n, n.(pending := n.pending[i := p]))
    ensures OwnOnly(n, n.(pending := n.pending[..i] + n.pending[i + 1..]))
  {
  }

  lemma SendHelloOwn(n: Node, now: int)
    ensures OwnOnly(n, SendHello(n, now)) && OwnOnly(n, RebootHandler(n, now))
  {
    hide AddTimer;
  }

  lemma LRHandlerOwn(n: Node, d: Addr, now: int)
    ensures OwnOnly(n, LRHandler(n, d, now))
  {
    hide GenerateRERR, OwnOnly;
    var n1 := ReplyTo(n, d, false);
    var n2 := if d in n1.table
              then n1.(table := n1.table[d := n1.table[d].(lastHop := n1.table[d].hop, hop := INFINITY,
                                                           life := now + DELETE_PERIOD, flag := Invalid)])
              else n1;
    OwnSame(n, n2);
    GenerateOwn(n2, d, false, false);
    var n3 := GenerateRERR(n2, d, false, false);
    OwnTrans(n, n2, n3);
    OwnSame(n3, LRHandler(n, d, now));
    OwnTrans(n, n3, LRHandler(n, d, now));
  }

  lemma HandleOwn(n: Node, j: Job, env: Env)
    ensures OwnOnly(n, Handle(n, j, env))
  {
    hide RebootHandler, ResendRREQ, SendHello, LRHandler, RefreshAll, OwnOnly, AddTimer, BreakVia, BrokenVia,
        BreakNeighbor;
    OwnSame(n, n);
    SendHelloOwn(n, env.now);
    ResendOwn(n, j.data, env.now);
    LRHandlerOwn(n, j.data, env.now);
    OwnSame(n, NeighborTimeout(n, j.data, env));
    var n1 := n.(tq := AddTimer(n.tq, env.now, PERIODIC_INTERVAL, Job(PeriodicTimer, 0)));
    RefreshAllFrame(n1, Keys(n1.table.Keys), env);
    OwnSame(n, PeriodicHandler(n, env));
  }

  lemma {:induction false} ScheduleOwn(n: Node, env: Env)
    ensures OwnOnly(n, ScheduleTimer(n, env))
    decreases CountDue(n.tq.list, env.now)
  {
    hide Handle, OwnOnly, Rearm;
    if n.tq.list == [] || env.now < n.tq.list[0].timeout {
      OwnSame(n, ScheduleTimer(n, env));
    } else {
      var n1 := Handle(n, n.tq.list[0].what, env);
      HandleOwn(n, n.tq.list[0].what, env);
      OwnSame(n1, FireHead(n, env));
      OwnTrans(n, n1, FireHead(n, env));
      ScheduleOwn(FireHead(n, env), env);
      OwnTrans(n, FireHead(n, env), ScheduleTimer(FireHead(n, env), env));
    }
  }

  /** The event is a RREQ that the step from n to n' sends on. */
  ghost predicate StepForwards(n: Node, ev: Event, env: Env, n': Node) {
    ev.Recv? && ev.msg.RreqMsg? && ev.from != n.ip && Forwards(n, n', ev.ttl - 1, ev.msg.rreq, env.now)
  }

  /** Whatever happens, the RREQs a node sends are its own, or the one it just received. */
  lemma {:induction false} StepSends(n: Node, ev: Event, env: Env)
    ensures var n' := Step(n, ev, env); OwnOnly(n, n') || StepForwards(n, ev, env, n')
  {
    hide ProcessRREQ, ProcessRREP, ProcessRERR, AgentRequest, ScheduleTimer, OwnOnly, Forwards;
    OwnSame(n, n);
    match ev
    case Recv(from, ttl, msg) =>
      if from != n.ip {
        match msg {
          case RreqMsg(m) => ProcessRREQSends(n, from, ttl - 1, m, env);
          case RrepMsg(m) => ProcessRREPOwn(n, from, m, env);
          case RerrMsg(m) => ProcessRERROwn(n, from, m, env);
        }
      }
    case Ask(d, src, tcp) => AgentRequestOwn(n, d, src, tcp, env);
    case Alarm =>
      var n1 := n.(tq := n.tq.(alarm := None));
      OwnSame(n, n1);
      ScheduleOwn(n1, env);
      OwnTrans(n, n1, ScheduleTimer(n1, env));
  }

  // ---- the ttl of every copy, in any network ----

  /** Something happens at node x. */
  datatype Move = Move(x: Addr, ev: Event, env: Env)

  /** Only what was sent, to x or to all, is received; the rest is up to timers and Local Agents. */
  ghost predicate CanMove(net: Discovery.Net, mv: Move) {
    && mv.x in net.nodes
    && (mv.ev.Recv? ==> exists p :: p in net.msgs && p.from == mv.ev.from && p.ttl == mv.ev.ttl && p.msg == mv.ev.msg
                                    && (p.to.Some? ==> p.to.value == mv.x))
  }

  function Moved(net: Discovery.Net, mv: Move): Node
    requires mv.x in net.nodes
  {
    Step(net.nodes[mv.x].(outbox := []), mv.ev, mv.env)
  }

  function After(net: Discovery.Net, mv: Move): Discovery.Net
    requires mv.x in net.nodes
  {
    var n := Moved(net, mv);
    Discovery.Net(net.nodes[mv.x := n],
                  net.msgs + set out | out in n.outbox :: Discovery.Packet(mv.x, out.to, out.ttl, out.msg))
  }

  /** The networks along the moves mvs, in which the originator o never starts the flood id anew. */
  ghost predicate NetRun(nets: seq<Discovery.Net>, mvs: seq<Move>, o: Addr, id: u32) {
    && |nets| == |mvs| + 1
    && forall i {:trigger mvs[i]} :: 0 <= i < |mvs| ==>
         && CanMove(nets[i], mvs[i]) && nets[i + 1] == After(nets[i], mvs[i])
         && (mvs[i].x == o ==> forall out :: out in Moved(nets[i], mvs[i]).outbox ==> !IsCopy(out.msg, o, id))
  }

  /** Addresses and pending RREQs are the nodes' own. */
  ghost predicate NodesOk(net: Discovery.Net) {
    forall x :: x in net.nodes ==> net.nodes[x].ip == x && OwnPending(net.nodes[x])
  }

  /** A copy has used up exactly the hops it has travelled; its hop count is a byte. */
  ghost predicate Travelled(hop: int, left: int, ttl: int) {
    1 <= left && if ttl <= 256 then hop + left == ttl else U8(hop + left) == U8(ttl)
  }

  ghost predicate TtlOk(net: Discovery.Net, o: Addr, id: u32, ttl: int) {
    forall p :: p in net.msgs && IsCopy(p.msg, o, id) ==> Travelled(p.msg.rreq.hop, p.ttl, ttl)
  }

  lemma OneHopFurther(hop: u8, left: int, ttl: int)
    requires Travelled(hop, left, ttl) && 1 < left
    ensures Travelled(U8(hop + 1), left - 1, ttl)
  {
  }

  lemma MovedOwn(net: Discovery.Net, mv: Move)
    requires NodesOk(net) && mv.x in net.nodes
    ensures Moved(net, mv).ip == mv.x && OwnPending(Moved(net, mv))
  {
    hide Step;
    var n := net.nodes[mv.x].(outbox := []);
    StepSends(n, mv.ev, mv.env);
    if !OwnOnly(n, Moved(net, mv)) {
      ForwardsKeeps(n, Moved(net, mv), mv.ev.ttl - 1, mv.ev.msg.rreq, mv.env.now);
    }
  }

  lemma ForwardsKeeps(n: Node, n': Node, ttl: int, m: Rreq, now: int)
    requires Forwards(n, n', ttl, m, now) && OwnPending(n)
    ensures n'.ip == n.ip && OwnPending(n')
  {
  }

  /** The copies a step adds: one at most, which has travelled one hop more than the one received. */
  lemma NewCopies(n: Node, ev: Event, env: Env, out: Out, o: Addr, id: u32)
    requires n.outbox == [] && OwnPending(n) && n.ip != o
    requires out in Step(n, ev, env).outbox && IsCopy(out.msg, o, id)
    ensures ev.Recv? && IsCopy(ev.msg, o, id)
    ensures 1 <= out.ttl == ev.ttl - 1 && out.msg.rreq.hop == U8(ev.msg.rreq.hop + 1)
  {
    hide Step;
    StepSends(n, ev, env);
    var n' := Step(n, ev, env);
    assert StepForwards(n, ev, env, n');
    var mid: Node, m': Rreq :|
      && OwnOnly(n, mid) && n' == Send(mid, None, ev.ttl - 1, RreqMsg(m')) && 0 < ev.ttl - 1
      && m' == ev.msg.rreq.(destSeq := m'.destSeq, hop := U8(ev.msg.rreq.hop + 1));
    assert out !in mid.outbox;
  }

  lemma MoveKeepsTtl(net: Discovery.Net, mv: Move, o: Addr, id: u32, ttl: int)
    requires NodesOk(net) && TtlOk(net, o, id, ttl) && CanMove(net, mv)
    requires mv.x == o ==> forall out :: out in Moved(net, mv).outbox ==> !IsCopy(out.msg, o, id)
    ensures NodesOk(After(net, mv)) && TtlOk(After(net, mv), o, id, ttl)
  {
    hide Step, OwnPending;
    MovedOwn(net, mv);
    var n := net.nodes[mv.x].(outbox := []);
    forall out | out in Moved(net, mv).outbox && IsCopy(out.msg, o, id)
      ensures Travelled(out.msg.rreq.hop, out.ttl, ttl)
    {
      assert OwnPending(n) by {
        SameOwn(net.nodes[mv.x], n);
      }
      NewCopies(n, mv.ev, mv.env, out, o, id);
      OneHopFurther(mv.ev.msg.rreq.hop, mv.ev.ttl, ttl);
    }
    hide Travelled;
  }

  lemma SameOwn(n: Node, n': Node)
    requires n'.pending == n.pending && n'.ip == n.ip && OwnPending(n)
    ensures OwnPending(n')
  {
  }

  /**
   In any network, whatever its nodes know, and over any deliveries, requests and timers: if all copies
   of a flood started with the same ttl, hop count plus ttl of every later copy equals it (modulo 256
   if it is more than 256, which no IP packet carries).
   */
  lemma {:induction false} FloodTtl(
    nets: seq<Discovery.Net>, mvs: seq<Move>, k: nat, o: Addr, id: u32, ttl: int)
    requires NetRun(nets, mvs, o, id) && k <= |mvs|
    requires NodesOk(nets[0]) && TtlOk(nets[0], o, id, ttl)
    ensures NodesOk(nets[k]) && TtlOk(nets[k], o, id, ttl)
  {
    hide NodesOk, TtlOk, CanMove, Moved, After;
    if k > 0 {
      FloodTtl(nets, mvs, k - 1, o, id, ttl);
      assert mvs[k - 1] == mvs[k - 1];
      MoveKeepsTtl(nets[k - 1], mvs[k - 1], o, id, ttl);
    }
  }

  // ---- at most one copy per node and PATH_TRAVERSAL_TIME ----

  lemma {:induction false} AddsCopies(outs: seq<Out>, outs': seq<Out>, ip: Addr, src: Addr, id: u32)
    requires Adds(outs, outs', ip) && src != ip
    ensures CopiesOf(outs', src, id) == CopiesOf(outs, src, id)
    decreases |outs'|
  {
    if |outs| < |outs'| {
      AddsCopies(outs, outs'[..|outs'| - 1], ip, src, id);
    } else {
      assert outs' == outs;
    }
  }

  /** The flood (src, id) is remembered until t at least. */
  predicate KnownUntil(n: Node, src: Addr, id: u32, t: int) {
    (src, id) in n.fw && t <= n.fw[(src, id)]
  }

  lemma SendCopies(mid: Node, ttl: int, m: Rreq, src: Addr, id: u32)
    requires 0 < ttl
    ensures CopiesOf(Send(mid, None, ttl, RreqMsg(m)).outbox, src, id)
         == CopiesOf(mid.outbox, src, id) + if m.src == src && m.id == id then 1 else 0
  {
  }

  /** A step sends at most one copy of another node's flood: one it did not remember, and does now. */
  lemma StepCopies(n: Node, ev: Event, env: Env, src: Addr, id: u32)
    requires OwnPending(n) && src != n.ip
    ensures var n' := Step(n, ev, env);
            && n'.ip == n.ip && OwnPending(n')
            && (CopiesOf(n'.outbox, src, id) == CopiesOf(n.outbox, src, id)
                || (CopiesOf(n'.outbox, src, id) == CopiesOf(n.outbox, src, id) + 1
                    && (src, id) !in n.fw && KnownUntil(n', src, id, env.now + PATH_TRAVERSAL_TIME)
                    && ev.Recv? && IsCopy(ev.msg, src, id) && ev.from != n.ip))
  {
    hide Step, CopiesOf, Adds;
    var n' := Step(n, ev, env);
    StepSends(n, ev, env);
    if OwnOnly(n, n') {
      AddsCopies(n.outbox, n'.outbox, n.ip, src, id);
    } else {
      var m := ev.msg.rreq;
      var mid: Node, m': Rreq :|
        && OwnOnly(n, mid) && n' == Send(mid, None, ev.ttl - 1, RreqMsg(m')) && 0 < ev.ttl - 1
        && m' == m.(destSeq := m'.destSeq, hop := U8(m.hop + 1)) && m.src != n.ip
        && (m.src, m.id) !in n.fw && n'.fw == n.fw[(m.src, m.id) := env.now + PATH_TRAVERSAL_TIME];
      AddsCopies(n.outbox, mid.outbox, n.ip, src, id);
      SendCopies(mid, ev.ttl - 1, m', src, id);
    }
  }

  lemma {:induction false} ScheduleKnows(n: Node, env: Env, src: Addr, id: u32, t: int)
    requires KnownUntil(n, src, id, t) && env.now < t
    ensures KnownUntil(ScheduleTimer(n, env), src, id, t)
    decreases CountDue(n.tq.list, env.now)
  {
    hide Handle;
    if n.tq.list != [] && n.tq.list[0].timeout <= env.now {
      HandleTotals(n, n.tq.list[0].what, env);
      ScheduleKnows(FireHead(n, env), env, src, id, t);
    }
  }

  /** What is remembered beyond now stays remembered. */
  lemma StepKnows(n: Node, ev: Event, env: Env, src: Addr, id: u32, t: int)
    requires KnownUntil(n, src, id, t) && env.now < t
    ensures KnownUntil(Step(n, ev, env), src, id, t)
  {
    hide Receive, AgentRequest, ScheduleTimer;
    match ev
    case Recv(from, ttl, msg) =>
      ReceivePreserves(n, from, ttl, msg, env, 0);
    case Ask(d, s, tcp) =>
      AgentRequestTotals(n, d, s, tcp, env);
    case Alarm =>
      ScheduleKnows(n.(tq := n.tq.(alarm := None)), env, src, id, t);
  }

  /** All of ms happens before end, and no earlier than PATH_TRAVERSAL_TIME before it. */
  ghost predicate Within(ms: seq<Moment>, end: int) {
    forall i :: 0 <= i < |ms| ==> end - PATH_TRAVERSAL_TIME <= ms[i].env.now < end
  }

  /**
   Whatever happens within PATH_TRAVERSAL_TIME, from any state, a node sends at most one copy of a flood
   of another node, and none if it remembers it until the end.
   */
  lemma {:induction false} OneCopyPerWindow(n: Node, ms: seq<Moment>, n': Node, src: Addr, id: u32, end: int)
    requires AnyRun(n, ms, n') && Within(ms, end) && OwnPending(n) && src != n.ip
    ensures CopiesOf(n'.outbox, src, id) <= CopiesOf(n.outbox, src, id) + if KnownUntil(n, src, id, end) then 0 else 1
    decreases ms
  {
    hide Step, CopiesOf, OwnPending;
    if ms != [] {
      var n1 := Step(n, ms[0].ev, ms[0].env);
      assert end - PATH_TRAVERSAL_TIME <= ms[0].env.now < end;
      StepCopies(n, ms[0].ev, ms[0].env, src, id);
      if KnownUntil(n, src, id, end) {
        StepKnows(n, ms[0].ev, ms[0].env, src, id, end);
      }
      OneCopyPerWindow(n1, ms[1..], n', src, id, end);
    }
  }

  /** Between two alarms, however long, a node sends at most one copy, and none of a flood it remembers. */
  lemma {:induction false} OneCopyWithoutTimers(n: Node, ms: seq<Moment>, n': Node, src: Addr, id: u32)
    requires AnyRun(n, ms, n') && OwnPending(n) && src != n.ip
    requires forall i :: 0 <= i < |ms| ==> !ms[i].ev.Alarm?
    ensures CopiesOf(n'.outbox, src, id) <= CopiesOf(n.outbox, src, id) + if (src, id) in n.fw then 0 else 1
    decreases ms
  {
    hide Step, CopiesOf, OwnPending;
    if ms != [] {
      var n1 := Step(n, ms[0].ev, ms[0].env);
      StepCopies(n, ms[0].ev, ms[0].env, src, id);
      StepRemembers(n, ms[0].ev, ms[0].env, src, id);
      OneCopyWithoutTimers(n1, ms[1..], n', src, id);
    }
  }

  lemma StepRemembers(n: Node, ev: Event, env: Env, src: Addr, id: u32)
    requires !ev.Alarm?
    ensures (src, id) in n.fw ==> (src, id) in Step(n, ev, env).fw
  {
    hide Receive, AgentRequest;
    match ev
    case Recv(from, ttl, msg) => ReceivePreserves(n, from, ttl, msg, env, 0);
    case Ask(d, s, tcp) => AgentRequestTotals(n, d, s, tcp, env);
  }

  // ---- one flood in a whole network ----

  /** The nodes other than o that would still send a copy on before end. */
  function Unaware(net: Discovery.Net, o: Addr, id: u32, end: int): set<Addr> {
    set x | x in net.nodes && x != o && !KnownUntil(net.nodes[x], o, id, end)
  }

  /** Copies of the flood sent in the first k moves, other than by its originator. */
  ghost function SentCopies(nets: seq<Discovery.Net>, mvs: seq<Move>, k: nat, o: Addr, id: u32): nat
    requires k <= |mvs| < |nets| && forall i :: 0 <= i < |mvs| ==> mvs[i].x in nets[i].nodes
  {
    if k == 0 then 0
    else SentCopies(nets, mvs, k - 1, o, id) + CopiesOf(Moved(nets[k - 1], mvs[k - 1]).outbox, o, id)
  }

  lemma {:induction false} NoCopies(outs: seq<Out>, src: Addr, id: u32)
    requires forall out :: out in outs ==> !IsCopy(out.msg, src, id)
    ensures CopiesOf(outs, src, id) == 0
  {
    if outs != [] {
      NoCopies(outs[..|outs| - 1], src, id);
    }
  }

  lemma Fewer(a: set<Addr>, b: set<Addr>, x: Addr)
    requires a <= b
    ensures |a| <= |b| && (x in b && x !in a ==> |a| < |b|)
  {
    if x in b && x !in a {
      assert b == a + {x} + (b - a - {x});
    } else {
      assert b == a + (b - a);
    }
  }

  /** Every copy makes a node aware that was not, and nobody forgets before end. */
  lemma MovePays(net: Discovery.Net, mv: Move, o: Addr, id: u32, end: int)
    requires NodesOk(net) && CanMove(net, mv) && end - PATH_TRAVERSAL_TIME <= mv.env.now < end
    requires mv.x == o ==> forall out :: out in Moved(net, mv).outbox ==> !IsCopy(out.msg, o, id)
    ensures NodesOk(After(net, mv))
    ensures CopiesOf(Moved(net, mv).outbox, o, id) + |Unaware(After(net, mv), o, id, end)| <= |Unaware(net, o, id, end)|
  {
    hide Step, OwnPending, KnownUntil, CopiesOf;
    MovedOwn(net, mv);
    var n := net.nodes[mv.x].(outbox := []);
    if mv.x == o {
      NoCopies(Moved(net, mv).outbox, o, id);
      assert Unaware(After(net, mv), o, id, end) == Unaware(net, o, id, end);
    } else {
      SameOwn(net.nodes[mv.x], n);
      StepCopies(n, mv.ev, mv.env, o, id);
      NoCopies([], o, id);
      Awareness(net.nodes[mv.x], n, mv.ev, mv.env, o, id, end);
      Fewer(Unaware(After(net, mv), o, id, end), Unaware(net, o, id, end), mv.x);
    }
  }

  lemma Awareness(was: Node, n: Node, ev: Event, env: Env, o: Addr, id: u32, end: int)
    requires n.fw == was.fw && end - PATH_TRAVERSAL_TIME <= env.now < end
    ensures KnownUntil(was, o, id, end) ==> KnownUntil(Step(n, ev, env), o, id, end)
    ensures (o, id) !in n.fw ==> !KnownUntil(was, o, id, end)
    ensures KnownUntil(Step(n, ev, env), o, id, env.now + PATH_TRAVERSAL_TIME)
            ==> KnownUntil(Step(n, ev, env), o, id, end)
  {
    hide Step;
    if KnownUntil(was, o, id, end) {
      StepKnows(n, ev, env, o, id, end);
    }
  }

  /** Within PATH_TRAVERSAL_TIME a flood costs a network at most one copy for each node but its originator. */
  lemma {:induction false} CopiesAtMostNodes(
    nets: seq<Discovery.Net>, mvs: seq<Move>, k: nat, o: Addr, id: u32, end: int)
    requires NetRun(nets, mvs, o, id) && k <= |mvs| && NodesOk(nets[0])
    requires forall i :: 0 <= i < |mvs| ==> end - PATH_TRAVERSAL_TIME <= mvs[i].env.now < end
    ensures NodesOk(nets[k])
    ensures SentCopies(nets, mvs, k, o, id) + |Unaware(nets[k], o, id, end)| <= |Unaware(nets[0], o, id, end)|
    ensures |Unaware(nets[0], o, id, end)| <= |nets[0].nodes.Keys - {o}|
  {
    hide NodesOk, CanMove, Moved, After;
    Fewer(Unaware(nets[0], o, id, end), nets[0].nodes.Keys - {o}, o);
    hide Unaware;
    if k > 0 {
      CopiesAtMostNodes(nets, mvs, k - 1, o, id, end);
      assert mvs[k - 1] == mvs[k - 1];
      MovePays(nets[k - 1], mvs[k - 1], o, id, end);
    }
  }

  // ---- copies are what was handled ----

  lemma {:induction false} HandledGrows(h: seq<Trace>, e: Trace, src: Addr, id: u32)
    ensures HandledOf(h + [e], src, id) >= HandledOf(h, src, id)
    ensures e.Handled? && e.src == src && e.id == id ==> HandledOf(h + [e], src, id) == HandledOf(h, src, id) + 1
  {
  }

  lemma {:induction false} ScheduleHandles(n: Node, env: Env)
    ensures TotalsOf(ScheduleTimer(n, env)).handled == TotalsOf(n).handled
    decreases CountDue(n.tq.list, env.now)
  {
    hide Handle, HandledIn, ResentIn, OriginatedIn;
    if n.tq.list != [] && n.tq.list[0].timeout <= env.now {
      HandleTotals(n, n.tq.list[0].what, env);
      assert TotalsOf(FireHead(n, env)).handled == TotalsOf(n).handled;
      ScheduleHandles(FireHead(n, env), env);
    }
  }

  lemma StepHandles(n: Node, ev: Event, env: Env, src: Addr, id: u32)
    ensures var h, h' := TotalsOf(n).handled, TotalsOf(Step(n, ev, env)).handled;
            && HandledOf(h, src, id) <= HandledOf(h', src, id)
            && ((src, id) !in n.fw && (src, id) in Step(n, ev, env).fw
                && ev.Recv? && IsCopy(ev.msg, src, id) && ev.from != n.ip
                ==> HandledOf(h', src, id) == HandledOf(h, src, id) + 1)
  {
    hide ProcessRREQ, ProcessRREP, ProcessRERR, AgentRequest, ScheduleTimer, HandledOf;
    var t, t' := TotalsOf(n), TotalsOf(Step(n, ev, env));
    match ev
    case Recv(from, ttl, msg) =>
      if from != n.ip && msg.RreqMsg? {
        ProcessRREQPreserves(n, from, ttl - 1, msg.rreq, env, 0);
        HandledGrows(t.handled, Handled(msg.rreq.src, msg.rreq.id, env.now), src, id);
        hide TotalsOf;
      } else {
        ReceivePreserves(n, from, ttl, msg, env, 0);
        hide TotalsOf;
        var s, i :| HandlesOnce(t, t', s, i, env.now);
        HandledGrows(t.handled, Handled(s, i, env.now), src, id);
      }
    case Ask(d, s, tcp) =>
      AgentRequestTotals(n, d, s, tcp, env);
    case Alarm =>
      ScheduleHandles(n.(tq := n.tq.(alarm := None)), env);
      hide TotalsOf;
  }

  lemma {:induction false} AnyRunCopies(n: Node, ms: seq<Moment>, n': Node, src: Addr, id: u32)
    requires AnyRun(n, ms, n') && OwnPending(n) && src != n.ip
    requires CopiesOf(n.outbox, src, id) <= HandledOf(TotalsOf(n).handled, src, id)
    ensures CopiesOf(n'.outbox, src, id) <= HandledOf(TotalsOf(n').handled, src, id)
    ensures n'.ip == n.ip && OwnPending(n')
    decreases ms
  {
    hide Step, CopiesOf, OwnPending, HandledOf, TotalsOf;
    if ms != [] {
      StepCopies(n, ms[0].ev, ms[0].env, src, id);
      StepHandles(n, ms[0].ev, ms[0].env, src, id);
      AnyRunCopies(Step(n, ms[0].ev, ms[0].env), ms[1..], n', src, id);
    }
  }

  /**
   Over every run from boot the copies of another node's flood that were sent number at most the times
   it was handled; and over any further events within PATH_TRAVERSAL_TIME at most one more is sent.
   */
  lemma {:induction false} CopiesWereHandled(
    ip: Addr, helloFlag: bool, now: int, ms: seq<Moment>, n: Node, ms': seq<Moment>, n': Node, src: Addr, id: u32,
        end: int)
    requires AnyRun(Boot(ip, helloFlag, now), ms, n) && AnyRun(n, ms', n') && Within(ms', end) && src != ip
    ensures CopiesOf(n.outbox, src, id) <= HandledOf(HandledIn(n.trace), src, id)
    ensures CopiesOf(n'.outbox, src, id) <= CopiesOf(n.outbox, src, id) + 1
  {
    var b := Boot(ip, helloFlag, now);
    assert OwnPending(b) && b.ip == ip && CopiesOf(b.outbox, src, id) == 0;
    hide Boot, AnyRun, Within;
    AnyRunCopies(b, ms, n, src, id);
    OneCopyPerWindow(n, ms', n', src, id, end);
  }
}
