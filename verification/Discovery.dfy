/**
 One route discovery in a network of daemons: originator o floods a single RREQ for destination d,
 and RREQs and RREPs are delivered in any order, any number of times or not at all, over any
 topology. Following next hops for o (and for d) strictly lowers the hop count and ends at o (d).
 */
module Discovery {
  import opened Base
  import opened Params
  import opened Node
  import opened Steps
  import opened Effects

  datatype Packet = Packet(from: Addr, to: Option<Addr>, ttl: int, msg: Msg)

  /** Packets are never removed: a copy may be delivered again, late, or never. */
  datatype Net = Net(nodes: map<Addr, Node>, msgs: set<Packet>)

  /** The discovery: its end points, RREQ id, originator sequence number and initial ttl. */
  datatype Disc = Disc(o: Addr, d: Addr, id: u32, srcSeq: u32, ttl: int)

  ghost predicate DiscOk(c: Disc) {
    c.o != c.d && 1 <= c.ttl <= 255
  }

  ghost predicate Start(c: Disc, net: Net) {
    && DiscOk(c)
    && c.o in net.nodes && !net.nodes[c.o].reboot
    && (forall x :: x in net.nodes ==> net.nodes[x].ip == x)
    && (forall x :: x in net.nodes ==> c.o !in net.nodes[x].table && c.d !in net.nodes[x].table)
    && exists g, destSeq ::
         net.msgs == {Packet(c.o, None, c.ttl, RreqMsg(Rreq(g, 0, c.id, c.d, destSeq, c.o, c.srcSeq)))}
  }

  /** The receiver's entries for the two end points have not run out. */
  ghost predicate NoExpiry(c: Disc, n: Node, now: int) {
    && (c.o in n.table ==> now < n.table[c.o].life)
    && (c.d in n.table ==> now < n.table[c.d].life)
  }

  ghost predicate CanDeliver(c: Disc, net: Net, p: Packet, x: Addr, env: Env) {
    && p in net.msgs && !p.msg.RerrMsg?
    && x in net.nodes && (p.to.Some? ==> p.to.value == x)
    && NoExpiry(c, net.nodes[x], env.now)
  }

  function Received(net: Net, p: Packet, x: Addr, env: Env): Node
    requires x in net.nodes
  {
    Receive(net.nodes[x].(outbox := []), p.from, p.ttl, p.msg, env)
  }

  function Deliver(net: Net, p: Packet, x: Addr, env: Env): Net
    requires x in net.nodes
  {
    var n := Received(net, p, x, env);
    Net(net.nodes[x := n], net.msgs + set out | out in n.outbox :: Packet(x, out.to, out.ttl, out.msg))
  }

  // ---- the invariant ----

  /** x has a live route to z of at most h hops. */
  ghost predicate Within(net: Net, x: Addr, z: Addr, h: int) {
    x in net.nodes && IsActive(net.nodes[x].table, z) && net.nodes[x].table[z].hop <= h
  }

  ghost function SeqFor(c: Disc, net: Net, z: Addr): u32 {
    if z == c.o then c.srcSeq else if c.d in net.nodes then net.nodes[c.d].localSeq else 0
  }

  ghost predicate EntryOk(c: Disc, net: Net, x: Addr, z: Addr)
    requires x in net.nodes
  {
    var t := net.nodes[x].table;
    z in t ==>
      && x != z
      && t[z].flag.Active? && t[z].seqNum == SeqFor(c, net, z) && 1 <= t[z].hop <= c.ttl
      && (if t[z].next == z then t[z].hop == 1
          else t[z].next != c.o && t[z].next != c.d && Within(net, t[z].next, z, t[z].hop - 1))
  }

  /** A node that knows d lies on a way from o: the two distances fit into the flood. */
  ghost predicate PairOk(c: Disc, net: Net, x: Addr)
    requires x in net.nodes
  {
    var t := net.nodes[x].table;
    c.d in t && x != c.o ==> c.o in t && t[c.o].hop + t[c.d].hop <= c.ttl
  }

  /** d has answered: only then does anybody know anything about d. */
  ghost predicate Answered(c: Disc, net: Net) {
    c.d in net.nodes && !net.nodes[c.d].reboot && (c.o, c.id) in net.nodes[c.d].fw
  }

  /** What a RREQ copy in flight promises: its sender is at most as far from o as it says. */
  ghost predicate RreqOk(c: Disc, net: Net, p: Packet)
    requires p.msg.RreqMsg?
  {
    var m := p.msg.rreq;
    && m.src == c.o && m.dest == c.d && m.id == c.id && m.srcSeq == c.srcSeq
    && p.to.None? && 1 <= p.ttl && m.hop + p.ttl == c.ttl
    && if p.from == c.o then m.hop == 0
       else p.from != c.d && 1 <= m.hop && Within(net, p.from, c.o, m.hop)
  }

  ghost predicate RrepOk(c: Disc, net: Net, p: Packet)
    requires p.msg.RrepMsg?
  {
    var m := p.msg.rrep;
    && ((m.dest == c.d && m.src == c.o) || (m.dest == c.o && m.src == c.d))
    && m.destSeq == SeqFor(c, net, m.dest) && m.hop + 1 <= c.ttl
    && p.from != c.o && p.from != m.src
    && (if p.from == m.dest then m.hop == 0 else 1 <= m.hop && Within(net, p.from, m.dest, m.hop))
    && p.to.Some? && p.to.value != m.dest
    && (p.to.value == m.src || Within(net, p.to.value, m.src, c.ttl - m.hop - 1))
  }

  ghost predicate MsgOk(c: Disc, net: Net, p: Packet) {
    match p.msg
    case RreqMsg(_) => RreqOk(c, net, p)
    case RrepMsg(_) => RrepOk(c, net, p) && Answered(c, net)
    case RerrMsg(_) => true
  }

  ghost predicate NodeOk(c: Disc, net: Net, x: Addr)
    requires x in net.nodes
  {
    && net.nodes[x].ip == x
    && EntryOk(c, net, x, c.o) && EntryOk(c, net, x, c.d) && PairOk(c, net, x)
    && (c.d in net.nodes[x].table ==> Answered(c, net))
  }

  ghost predicate Inv(c: Disc, net: Net) {
    && DiscOk(c)
    && c.o in net.nodes && !net.nodes[c.o].reboot
    && (forall x :: x in net.nodes ==> NodeOk(c, net, x))
    && (forall p :: p in net.msgs ==> p.from in net.nodes && MsgOk(c, net, p))
  }

  lemma StartInv(c: Disc, net: Net)
    requires Start(c, net)
    ensures Inv(c, net)
  {
  }

  // ---- what one reception does at the receiving node ----

  /** The entry for z after hearing from `from` that it is h hops away from z. */
  ghost predicate Learned(t: Table, t': Table, from: Addr, z: Addr, seqNum: u32, h: int) {
    && IsActive(t', z) && t'[z].seqNum == seqNum && t'[z].hop <= h + 1
    && (z in t ==> t'[z].hop <= t[z].hop)
    && ((z in t && CoreOf(t'[z]) == CoreOf(t[z])) || (t'[z].hop == h + 1 && t'[z].next == from))
  }

  ghost predicate Kept(t: Table, t': Table, z: Addr) {
    (z in t' <==> z in t) && (z in t ==> CoreOf(t'[z]) == CoreOf(t[z]))
  }

  /** The table effect shared by every RREQ and RREP: learn the sender, then the end point z behind it. */
  lemma LearnEffect(t: Table, from: Addr, z: Addr, w: Addr, seqNum: u32, h: u8, life: int, life': int, keep: bool)
    requires from != w && z != w && h + 1 <= 255 && (from == z ==> h == 0)
    requires z in t ==> t[z].flag.Active? && t[z].seqNum == seqNum && 1 <= t[z].hop
    ensures var t1 := NeighborTable(t, from, if z == from then seqNum else 0, life);
            var t2 := if z != from then RouteTable(t1, z, seqNum, h + 1, from, life', keep) else t1;
            Learned(t, t2, from, z, seqNum, h) && Kept(t, t2, w) && Kept(t, t1, w)
            && (z != from ==> Kept(t, t1, z) && (z in t ==> t1[z].life == t[z].life))
            && (w in t ==> t1[w].life == t[w].life && t2[w].life == t[w].life)
            && (z in t && keep ==> t2[z].life >= t[z].life || (z == from && t2[z].life == life))
  {
  }

  lemma KeptBySame(t: Table, t': Table, t'': Table, z: Addr)
    requires Kept(t, t', z) && SameCores(t', t'')
    ensures Kept(t, t'', z)
  {
  }

  lemma LearnedBySame(t: Table, t': Table, t'': Table, from: Addr, z: Addr, seqNum: u32, h: int)
    requires Learned(t, t', from, z, seqNum, h) && SameCores(t', t'')
    ensures Learned(t, t'', from, z, seqNum, h)
  {
  }

  /** What is assumed of the receiving node alone. */
  ghost predicate LocalOk(c: Disc, n: Node, seqD: u32) {
    && (c.o in n.table ==> n.table[c.o].flag.Active? && n.table[c.o].seqNum == c.srcSeq && 1 <= n.table[c.o].hop)
    && (c.d in n.table ==> n.table[c.d].flag.Active? && n.table[c.d].seqNum == seqD && 1 <= n.table[c.d].hop)
    && (c.d in n.table && n.ip != c.o ==> c.o in n.table)
  }

  ghost predicate SameIdentity(n: Node, n': Node) {
    n'.ip == n.ip && n'.reboot == n.reboot && n'.fw.Keys >= n.fw.Keys
  }

  /** recvRREQ but for the routing table. */
  lemma RecvRREQFrame(c: Disc, n: Node, from: Addr, m: Rreq, now: int)
    requires n.outbox == [] && n.ip != m.src && m.hop + 1 <= 255
    ensures var (n', m', v) := RecvRREQ(n, from, m, now);
            && SameIdentity(n, n')
            && (forall out :: out in n'.outbox ==> out.msg.RerrMsg?)
            && (v.Ignore? || n.ip != m.dest ==> n'.localSeq == n.localSeq)
            && (!v.Ignore? ==> (m.src, m.id) !in n.fw && (m.src, m.id) in n'.fw)
            && (v.GenRrep? ==> n.ip == m.dest || IsActive(n'.table, m.dest))
            && (v.FwdRreq? ==> n.ip != m.dest && m' == m.(destSeq := m'.destSeq, hop := m.hop + 1))
  {
    hide NeighborUpdate, RouteUpdate, NeighborTable, RouteTable;
    var s := if m.src == from then m.srcSeq else 0;
    var life := now + NEIGHBOR_LIFE;
    NeighborUpdateEffect(n, from, m.src, s, life, now);
    var n1 := NeighborUpdate(n, from, m.src, s, life, now);
    var n2 := n1.(fw := n1.fw[(m.src, m.id) := now + PATH_TRAVERSAL_TIME],
                  trace := n1.trace + [Handled(m.src, m.id, now)]);
    RouteUpdateEffect(n2, m.src, m.srcSeq, m.hop + 1, from, ReverseNew(n2.table, m, now), true, now);
  }

  lemma {:induction false} RecvRREQEffect(c: Disc, n: Node, from: Addr, m: Rreq, now: int, seqD: u32)
    requires LocalOk(c, n, seqD) && n.ip != c.o && from != c.d && c.o != c.d
    requires m.src == c.o && m.dest == c.d && m.id == c.id && m.srcSeq == c.srcSeq
    requires m.hop + 1 <= 255 && (from == c.o ==> m.hop == 0)
    ensures var (n', m', v) := RecvRREQ(n, from, m, now);
            && Kept(n.table, n'.table, c.d)
            && (Learned(n.table, n'.table, from, c.o, c.srcSeq, m.hop)
                || ((c.o, c.id) in n.fw && Kept(n.table, n'.table, c.o)))
            && (c.d in n.table ==> n'.table[c.d].life == n.table[c.d].life)
            && (c.o in n.table && now < n.table[c.o].life ==> now < n'.table[c.o].life)
  {
    hide RecvRREQ, NeighborTable, RouteTable, Learned, Kept;
    RecvRREQTable(n, from, m, now);
    var t1 := NeighborTable(n.table, from, if m.src == from then m.srcSeq else 0, now + NEIGHBOR_LIFE);
    LearnEffect(n.table, from, c.o, c.d, c.srcSeq, m.hop, now + NEIGHBOR_LIFE, ReverseNew(t1, m, now), true);
  }

  /** An answer about z toward w: it leaves along the sender's route to w and carries its distance to z. */
  ghost predicate AnswerOut(n: Node, out: Out, z: Addr, w: Addr, seqNum: u32, hop: int) {
    && IsActive(n.table, w) && out.to == Some(n.table[w].next)
    && out.msg.RrepMsg? && out.msg.rrep.dest == z && out.msg.rrep.src == w
    && out.msg.rrep.destSeq == seqNum && out.msg.rrep.hop == hop
  }

  ghost predicate OldOrAnswer(c: Disc, n: Node, out: Out) {
    || out.msg.RerrMsg?
    || (if n.ip == c.d then AnswerOut(n, out, c.d, c.o, n.localSeq, 0)
        else IsActive(n.table, c.d) && AnswerOut(n, out, c.d, c.o, n.table[c.d].seqNum, n.table[c.d].hop))
    || (n.ip != c.d && IsActive(n.table, c.o) && AnswerOut(n, out, c.o, c.d, c.srcSeq, n.table[c.o].hop))
  }

  lemma CreateRREPEffect(c: Disc, n: Node, from: Addr, m: Rreq, env: Env)
    requires m.src == c.o && m.dest == c.d && (n.ip != c.d ==> FindActive(n.table, c.d, env.now))
    ensures var (n', rrep) := CreateRREP(n, from, m, env);
            && SameCores(n.table, n'.table) && n' == n.(table := n'.table)
            && (forall k :: k in n.table ==> n'.table[k].life == n.table[k].life)
            && rrep.dest == c.d && rrep.src == c.o
            && if n.ip == c.d then rrep.hop == 0 && rrep.destSeq == n.localSeq
               else rrep.hop == n.table[c.d].hop && rrep.destSeq == n.table[c.d].seqNum
  {
  }

  lemma {:induction false} AnswerEffect(c: Disc, n: Node, from: Addr, m: Rreq, env: Env)
    requires c.o != c.d && m.src == c.o && m.dest == c.d && m.srcSeq == c.srcSeq
    requires forall out :: out in n.outbox ==> out.msg.RerrMsg?
    requires n.ip != c.d ==> FindActive(n.table, c.o, env.now) && FindActive(n.table, c.d, env.now)
    ensures var n' := AnswerRREQ(n, from, m, env);
            && SameIdentity(n, n') && n'.localSeq == n.localSeq && SameCores(n.table, n'.table)
            && forall out :: out in n'.outbox ==> OldOrAnswer(c, n, out)
  {
    hide CreateRREP, Unicast;
    var (n1, rrep) := CreateRREP(n, from, m, env);
    CreateRREPEffect(c, n, from, m, env);
    var n2 := Unicast(n1, m.src, rrep, env.now);
    UnicastEffect(n1, m.src, rrep, env.now);
    assert CoreOfIs(n.table, n1.table, c.o) && CoreOfIs(n.table, n1.table, c.d);
    assert CoreOfIs(n.table, n2.table, c.o) && CoreOfIs(n.table, n2.table, c.d);
    hide CoreOfIs;
    assert forall out :: out in n2.outbox ==> OldOrAnswer(c, n, out);
    if m.g && m.dest != n.ip {
      var grrep := CreateGRREP(n2, m, env);
      assert grrep.dest == c.o && grrep.src == c.d && grrep.destSeq == c.srcSeq && grrep.hop == n.table[c.o].hop;
      UnicastEffect(n2, m.dest, grrep, env.now);
    }
  }

  ghost predicate CoreOfIs(t: Table, t': Table, k: Addr) {
    k in t ==> k in t' && CoreOf(t'[k]) == CoreOf(t[k])
  }

  /** One reception as the network sees it: z is the end point learnt about, w the other one. */
  ghost predicate NodeStep(c: Disc, n: Node, n': Node, from: Addr, z: Addr, w: Addr, seqNum: u32, h: int) {
    && SameIdentity(n, n') && Kept(n.table, n'.table, w)
    && (Learned(n.table, n'.table, from, z, seqNum, h) || (z == c.o && Kept(n.table, n'.table, z)))
    && (n'.localSeq != n.localSeq ==> n.ip == c.d && (n.reboot || (c.o, c.id) !in n.fw))
  }

  ghost predicate Rebroadcast(c: Disc, n: Node, out: Out, ttl: int, m: Rreq) {
    && n.ip != c.d && IsActive(n.table, c.o) && n.table[c.o].hop <= m.hop + 1
    && out.to.None? && out.ttl == ttl - 1 && 1 <= out.ttl && out.msg.RreqMsg?
    && out.msg.rreq == m.(hop := out.msg.rreq.hop, destSeq := out.msg.rreq.destSeq) && out.msg.rreq.hop == m.hop + 1
  }

  ghost predicate RreqOut(c: Disc, n: Node, out: Out, ttl: int, m: Rreq) {
    || Rebroadcast(c, n, out, ttl, m)
    || (OldOrAnswer(c, n, out)
        && (out.msg.RrepMsg? ==> !n.reboot && if n.ip == c.d then (c.o, c.id) in n.fw else c.d in n.table))
  }

  ghost predicate RreqHeard(c: Disc, n: Node, from: Addr, m: Rreq, now: int, seqD: u32) {
    && LocalOk(c, n, seqD) && NoExpiry(c, n, now) && n.outbox == [] && c.o != c.d
    && n.ip != c.o && n.ip != from && from != c.d
    && m.src == c.o && m.dest == c.d && m.id == c.id && m.srcSeq == c.srcSeq
    && m.hop + 1 <= 255 && (from == c.o ==> m.hop == 0)
  }

  lemma RreqNodeReboot(c: Disc, n: Node, from: Addr, m: Rreq, now: int, seqD: u32)
    requires RreqHeard(c, n, from, m, now, seqD) && n.reboot
    ensures var n' := RebootRREQ(n, from, m, now);
            NodeStep(c, n, n', from, c.o, c.d, c.srcSeq, m.hop) && n'.outbox == []
  {
    hide Learned, Kept, NeighborTable, RouteTable, ReverseNew;
    var life := now + NEIGHBOR_LIFE;
    var t1 := NeighborTable(n.table, from, if m.src == from then m.srcSeq else 0, life);
    LearnEffect(n.table, from, c.o, c.d, c.srcSeq, m.hop, life, ReverseNew(t1, m, now), true);
  }

  lemma RreqNode(c: Disc, n: Node, from: Addr, ttl: int, m: Rreq, env: Env, seqD: u32)
    requires RreqHeard(c, n, from, m, env.now, seqD)
    ensures var n' := Receive(n, from, ttl, RreqMsg(m), env);
            && NodeStep(c, n, n', from, c.o, c.d, c.srcSeq, m.hop)
            && forall out :: out in n'.outbox ==> RreqOut(c, n', out, ttl, m)
  {
    hide RebootRREQ, RecvRREQ, RecvRREP, ProcessRERR, AnswerRREQ, NodeStep, RreqOut;
    if n.reboot {
      RreqNodeReboot(c, n, from, m, env.now, seqD);
    } else {
      RreqNodeRunning(c, n, from, ttl, m, env, seqD);
    }
  }

  lemma RreqNodeRunning(c: Disc, n: Node, from: Addr, ttl: int, m: Rreq, env: Env, seqD: u32)
    requires RreqHeard(c, n, from, m, env.now, seqD) && !n.reboot
    ensures var n' := ProcessRREQ(n, from, ttl - 1, m, env);
            && NodeStep(c, n, n', from, c.o, c.d, c.srcSeq, m.hop)
            && forall out :: out in n'.outbox ==> RreqOut(c, n', out, ttl, m)
  {
    hide RecvRREQ, AnswerRREQ, AnswerOut, NeighborTable, RouteTable;
    var (n1, m1, v) := RecvRREQ(n, from, m, env.now);
    RecvRREQFrame(c, n, from, m, env.now);
    RecvRREQEffect(c, n, from, m, env.now, seqD);
    assert v.GenRrep? && n.ip != c.d ==> FindActive(n1.table, c.o, env.now) && FindActive(n1.table, c.d, env.now) by {
      if v.GenRrep? && n.ip != c.d {
        assert c.d in n.table;
        assert c.o in n.table;
      }
    }
    hide Kept, Learned;
    if v.GenRrep? {
      AnswerNode(c, n, n1, from, ttl, m, env);
    } else if v.FwdRreq? {
      LearnedHop(n.table, n1.table, from, c.o, c.srcSeq, m.hop);
    }
  }

  lemma LearnedHop(t: Table, t': Table, from: Addr, z: Addr, seqNum: u32, h: int)
    requires Learned(t, t', from, z, seqNum, h)
    ensures IsActive(t', z) && t'[z].hop <= h + 1
  {
  }

  lemma AnswerNode(c: Disc, n: Node, n1: Node, from: Addr, ttl: int, m: Rreq, env: Env)
    requires c.o != c.d && m.src == c.o && m.dest == c.d && m.srcSeq == c.srcSeq && !n1.reboot
    requires forall out :: out in n1.outbox ==> out.msg.RerrMsg?
    requires NodeStep(c, n, n1, from, c.o, c.d, c.srcSeq, m.hop)
        && Learned(n.table, n1.table, from, c.o, c.srcSeq, m.hop)
    requires if n1.ip == c.d then (c.o, c.id) in n1.fw
             else FindActive(n1.table, c.o, env.now) && FindActive(n1.table, c.d, env.now)
    ensures var n' := AnswerRREQ(n1, from, m, env);
            && NodeStep(c, n, n', from, c.o, c.d, c.srcSeq, m.hop)
            && forall out :: out in n'.outbox ==> RreqOut(c, n', out, ttl, m)
  {
    AnswerEffect(c, n1, from, m, env);
    var n' := AnswerRREQ(n1, from, m, env);
    LearnedBySame(n.table, n1.table, n'.table, from, c.o, c.srcSeq, m.hop);
    KeptBySame(n.table, n1.table, n'.table, c.d);
    hide AnswerRREQ, AnswerOut, Learned, Kept;
    forall out | out in n'.outbox ensures RreqOut(c, n', out, ttl, m) {
      OldOrAnswerBySame(c, n1, n', out);
      hide OldOrAnswer;
    }
  }

  lemma OldOrAnswerBySame(c: Disc, n: Node, n': Node, out: Out)
    requires OldOrAnswer(c, n, out) && SameCores(n.table, n'.table) && n'.ip == n.ip && n'.localSeq == n.localSeq
    ensures OldOrAnswer(c, n', out)
    ensures c.d in n.table <==> c.d in n'.table
  {
  }

  ghost predicate RrepHeard(c: Disc, n: Node, from: Addr, m: Rrep, z: Addr, w: Addr) {
    && c.o != c.d && m.dest == z && m.src == w && ((z == c.d && w == c.o) || (z == c.o && w == c.d))
    && n.outbox == [] && n.ip != from && from != w && m.hop + 1 <= 255 && (from == z ==> m.hop == 0)
    && (z in n.table ==> n.table[z].flag.Active? && n.table[z].seqNum == m.destSeq && 1 <= n.table[z].hop)
  }

  /** The answer passed on: one hop longer, along the route to the other end point. */
  ghost predicate Relay(n: Node, out: Out, m: Rrep, w: Addr) {
    && n.ip != w && IsActive(n.table, w) && out.to == Some(n.table[w].next)
    && out.msg.RrepMsg? && out.msg.rrep.hop == m.hop + 1 && out.msg.rrep == m.(hop := out.msg.rrep.hop)
  }

  lemma RecvRREPFrame(n: Node, from: Addr, m: Rrep, now: int)
    requires n.outbox == [] && m.hop + 1 <= 255
    ensures var (n', m', send) := RecvRREP(n, from, m, now);
            && SameIdentity(n, n') && n'.localSeq == n.localSeq
            && (forall out :: out in n'.outbox ==> out.msg.RerrMsg?)
            && (send ==> n.ip != m.src && m'.hop == m.hop + 1 && m' == m.(hop := m'.hop))
  {
    hide NeighborUpdate, RouteUpdate, NeighborTable, RouteTable;
    var s := if m.dest == from then m.destSeq else 0;
    var life := now + NEIGHBOR_LIFE;
    NeighborUpdateEffect(n, from, m.src, s, life, now);
    var n1 := NeighborUpdate(n, from, m.src, s, life, now);
    RouteUpdateEffect(n1, m.dest, m.destSeq, m.hop + 1, from, now + m.life, false, now);
  }

  lemma {:induction false} RecvRREPEffect(c: Disc, n: Node, from: Addr, m: Rrep, now: int, z: Addr, w: Addr)
    requires RrepHeard(c, n, from, m, z, w)
    ensures var (n', _, _) := RecvRREP(n, from, m, now);
            Learned(n.table, n'.table, from, z, m.destSeq, m.hop) && Kept(n.table, n'.table, w)
  {
    hide RecvRREP, NeighborTable, RouteTable, Learned, Kept;
    RecvRREPTable(n, from, m, now);
    var s := if z == from then m.destSeq else 0;
    var t1 := NeighborTable(n.table, from, s, now + NEIGHBOR_LIFE);
    var t2 := if z != from then RouteTable(t1, z, m.destSeq, m.hop + 1, from, now + m.life, false) else t1;
    LearnEffect(n.table, from, z, w, m.destSeq, m.hop, now + NEIGHBOR_LIFE, now + m.life, false);
    var t3 := RecvRREP(n, from, m, now).0.table;
    LearnedBySame(n.table, t2, t3, from, z, m.destSeq, m.hop);
    KeptBySame(n.table, t2, t3, w);
  }

  lemma RrepNodeReboot(c: Disc, n: Node, from: Addr, m: Rrep, now: int, z: Addr, w: Addr)
    requires RrepHeard(c, n, from, m, z, w)
    ensures var n' := RebootRREP(n, from, m, now);
            NodeStep(c, n, n', from, z, w, m.destSeq, m.hop) && n'.localSeq == n.localSeq && n'.outbox == []
            && Learned(n.table, n'.table, from, z, m.destSeq, m.hop)
  {
    hide Learned, Kept, NeighborTable, RouteTable;
    LearnEffect(n.table, from, z, w, m.destSeq, m.hop, now + NEIGHBOR_LIFE, now + m.life, false);
  }

  lemma RrepNodeRunning(c: Disc, n: Node, from: Addr, m: Rrep, env: Env, z: Addr, w: Addr)
    requires RrepHeard(c, n, from, m, z, w) && !n.reboot
    ensures var n' := ProcessRREP(n, from, m, env);
            && NodeStep(c, n, n', from, z, w, m.destSeq, m.hop) && n'.localSeq == n.localSeq
            && Learned(n.table, n'.table, from, z, m.destSeq, m.hop)
            && forall out :: out in n'.outbox ==> out.msg.RerrMsg? || Relay(n', out, m, w)
  {
    hide RecvRREP, Unicast, Learned, Kept;
    var (n1, m1, send) := RecvRREP(n, from, m, env.now);
    RecvRREPFrame(n, from, m, env.now);
    RecvRREPEffect(c, n, from, m, env.now, z, w);
    if send {
      UnicastEffect(n1, w, m1, env.now);
      var n' := Unicast(n1, w, m1, env.now);
      LearnedBySame(n.table, n1.table, n'.table, from, z, m.destSeq, m.hop);
      KeptBySame(n.table, n1.table, n'.table, w);
      assert CoreOfIs(n1.table, n'.table, w);
    }
  }

  lemma RrepNode(c: Disc, n: Node, from: Addr, ttl: int, m: Rrep, env: Env, z: Addr, w: Addr)
    requires RrepHeard(c, n, from, m, z, w)
    ensures var n' := Receive(n, from, ttl, RrepMsg(m), env);
            && NodeStep(c, n, n', from, z, w, m.destSeq, m.hop) && n'.localSeq == n.localSeq
            && Learned(n.table, n'.table, from, z, m.destSeq, m.hop)
            && forall out :: out in n'.outbox ==> !n.reboot && (out.msg.RerrMsg? || Relay(n', out, m, w))
  {
    hide RebootRREP, RecvRREP, ProcessRREQ, ProcessRERR, Unicast, NodeStep, Learned, Relay;
    if n.reboot {
      RrepNodeReboot(c, n, from, m, env.now, z, w);
    } else {
      RrepNodeRunning(c, n, from, m, env, z, w);
    }
  }
  // ---- one delivery keeps the invariant ----

  /** x learnt from `from`, h hops away from z, about z (or nothing); all other nodes stayed put. */
  ghost predicate XStep(c: Disc, net: Net, net': Net, x: Addr, from: Addr, z: Addr, w: Addr, h: int) {
    && x in net.nodes && net'.nodes.Keys == net.nodes.Keys
    && (forall y :: y in net.nodes && y != x ==> net'.nodes[y] == net.nodes[y])
    && ((z == c.o && w == c.d) || (z == c.d && w == c.o))
    && NodeStep(c, net.nodes[x], net'.nodes[x], from, z, w, SeqFor(c, net, z), h)
    && x != z && 0 <= h && h + 1 <= c.ttl
    && (if from == z then h == 0 else from != c.o && from != c.d && Within(net, from, z, h))
    && (z == c.d ==> Answered(c, net) && (x == c.o || Within(net, x, c.o, c.ttl - h - 1)))
  }

  lemma XStepWithin(c: Disc, net: Net, net': Net, x: Addr, from: Addr, z: Addr, w: Addr, h: int, y: Addr, k: Addr,
      b: int)
    requires XStep(c, net, net', x, from, z, w, h) && Within(net, y, k, b) && (k == c.o || k == c.d)
    ensures Within(net', y, k, b)
  {
  }

  lemma XStepSeq(c: Disc, net: Net, net': Net, x: Addr, from: Addr, z: Addr, w: Addr, h: int)
    requires XStep(c, net, net', x, from, z, w, h) && Answered(c, net) && NodeOk(c, net, x)
    ensures Answered(c, net')
    ensures forall k :: SeqFor(c, net', k) == SeqFor(c, net, k)
  {
    hide Learned, Kept, EntryOk;
  }

  lemma XStepOtherNode(c: Disc, net: Net, net': Net, x: Addr, from: Addr, z: Addr, w: Addr, h: int, y: Addr)
    requires XStep(c, net, net', x, from, z, w, h) && NodeOk(c, net, x)
    requires y in net.nodes && y != x && NodeOk(c, net, y)
    ensures NodeOk(c, net', y)
  {
    hide Within, Answered;
    var t := net.nodes[y].table;
    if c.d in t {
      XStepSeq(c, net, net', x, from, z, w, h);
      if t[c.d].next != c.d {
        XStepWithin(c, net, net', x, from, z, w, h, t[c.d].next, c.d, t[c.d].hop - 1);
      }
    }
    if c.o in t && t[c.o].next != c.o {
      XStepWithin(c, net, net', x, from, z, w, h, t[c.o].next, c.o, t[c.o].hop - 1);
    }
    hide XStep;
  }

  lemma XStepKeptEntry(c: Disc, net: Net, net': Net, x: Addr, from: Addr, z: Addr, w: Addr, h: int, k: Addr)
    requires DiscOk(c) && XStep(c, net, net', x, from, z, w, h) && NodeOk(c, net, x) && (k == c.o || k == c.d)
    requires k in net'.nodes[x].table ==>
      k in net.nodes[x].table && CoreOf(net'.nodes[x].table[k]) == CoreOf(net.nodes[x].table[k])
    ensures EntryOk(c, net', x, k)
  {
    var t := net.nodes[x].table;
    if k in net'.nodes[x].table {
      if k == c.d {
        XStepSeq(c, net, net', x, from, z, w, h);
      }
      if t[k].next != k {
        XStepWithin(c, net, net', x, from, z, w, h, t[k].next, k, t[k].hop - 1);
      }
      assert CoreOf(net'.nodes[x].table[k]) == CoreOf(t[k]);
      hide XStep, Within, Answered, PairOk;
    }
  }

  lemma XStepLearnedEntry(c: Disc, net: Net, net': Net, x: Addr, from: Addr, z: Addr, w: Addr, h: int)
    requires DiscOk(c) && XStep(c, net, net', x, from, z, w, h) && NodeOk(c, net, x)
    ensures EntryOk(c, net', x, z)
  {
    var t, t' := net.nodes[x].table, net'.nodes[x].table;
    if z in t && z in t' && CoreOf(t'[z]) == CoreOf(t[z]) {
      XStepKeptEntry(c, net, net', x, from, z, w, h, z);
    } else if z in t' {
      assert Learned(t, t', from, z, SeqFor(c, net, z), h);
      if z == c.d {
        XStepSeq(c, net, net', x, from, z, w, h);
      }
      if from != z {
        XStepWithin(c, net, net', x, from, z, w, h, from, z, h);
      }
      hide NodeStep, Within, Answered;
    }
  }

  lemma XStepPair(c: Disc, net: Net, net': Net, x: Addr, from: Addr, z: Addr, w: Addr, h: int)
    requires DiscOk(c) && XStep(c, net, net', x, from, z, w, h) && NodeOk(c, net, x)
    ensures PairOk(c, net', x)
  {
    hide EntryOk;
  }

  lemma XStepNode(c: Disc, net: Net, net': Net, x: Addr, from: Addr, z: Addr, w: Addr, h: int)
    requires DiscOk(c) && XStep(c, net, net', x, from, z, w, h) && NodeOk(c, net, x)
    ensures NodeOk(c, net', x)
  {
    XStepLearnedEntry(c, net, net', x, from, z, w, h);
    XStepKeptEntry(c, net, net', x, from, z, w, h, w);
    XStepPair(c, net, net', x, from, z, w, h);
    if Answered(c, net) {
      XStepSeq(c, net, net', x, from, z, w, h);
    }
    hide EntryOk, PairOk, Learned, Answered;
  }

  lemma XStepMsg(c: Disc, net: Net, net': Net, x: Addr, from: Addr, z: Addr, w: Addr, h: int, p: Packet)
    requires XStep(c, net, net', x, from, z, w, h) && NodeOk(c, net, x) && MsgOk(c, net, p)
    ensures MsgOk(c, net', p)
  {
    match p.msg
    case RreqMsg(m) =>
      if p.from != c.o {
        XStepWithin(c, net, net', x, from, z, w, h, p.from, c.o, m.hop);
      }
      hide XStep, Within, NodeOk;
    case RrepMsg(m) =>
      XStepSeq(c, net, net', x, from, z, w, h);
      if p.from != m.dest {
        XStepWithin(c, net, net', x, from, z, w, h, p.from, m.dest, m.hop);
      }
      if p.to.value != m.src {
        XStepWithin(c, net, net', x, from, z, w, h, p.to.value, m.src, c.ttl - m.hop - 1);
      }
      hide XStep, Within, NodeOk, Answered;
    case RerrMsg(_) =>
  }
  // ---- the new copies ----

  lemma NewRebroadcast(c: Disc, net: Net, x: Addr, out: Out, p: Packet)
    requires x in net.nodes && NodeOk(c, net, x) && x != c.o
    requires p.msg.RreqMsg? && RreqOk(c, net, p) && Rebroadcast(c, net.nodes[x], out, p.ttl, p.msg.rreq)
    ensures MsgOk(c, net, Packet(x, out.to, out.ttl, out.msg))
  {
    hide EntryOk, PairOk, Answered;
  }

  lemma NewAnswer(c: Disc, net: Net, x: Addr, out: Out, z: Addr, w: Addr, hop: int)
    requires DiscOk(c) && x in net.nodes && NodeOk(c, net, x) && Answered(c, net)
    requires (z == c.d && w == c.o) || (z == c.o && w == c.d)
    requires x != c.o && x != w && AnswerOut(net.nodes[x], out, z, w, SeqFor(c, net, z), hop)
    requires if x == z then hop == 0 else IsActive(net.nodes[x].table, z) && hop == net.nodes[x].table[z].hop
    ensures MsgOk(c, net, Packet(x, out.to, out.ttl, out.msg))
  {
    assert EntryOk(c, net, x, z) && EntryOk(c, net, x, w);
    hide Answered, SeqFor;
  }

  lemma NewRelay(c: Disc, net: Net, x: Addr, out: Out, m: Rrep, z: Addr, w: Addr)
    requires DiscOk(c) && x in net.nodes && NodeOk(c, net, x) && Answered(c, net)
    requires (z == c.d && w == c.o) || (z == c.o && w == c.d)
    requires m.dest == z && m.src == w && m.destSeq == SeqFor(c, net, z)
    requires x != c.o && x != z && Relay(net.nodes[x], out, m, w)
    requires Within(net, x, z, m.hop + 1) && Within(net, x, w, c.ttl - m.hop - 1)
    ensures MsgOk(c, net, Packet(x, out.to, out.ttl, out.msg))
  {
    assert EntryOk(c, net, x, z) && EntryOk(c, net, x, w);
    hide Answered, SeqFor;
  }

  // ---- deliveries ----

  lemma NodeOkLocal(c: Disc, net: Net, x: Addr)
    requires x in net.nodes && NodeOk(c, net, x)
    ensures LocalOk(c, net.nodes[x].(outbox := []), SeqFor(c, net, c.d))
  {
    hide Within, Answered;
  }

  lemma DeliverRREQ(c: Disc, net: Net, p: Packet, x: Addr, env: Env)
    requires Inv(c, net) && CanDeliver(c, net, p, x, env) && p.msg.RreqMsg? && x != c.o && x != p.from
    ensures Inv(c, Deliver(net, p, x, env))
  {
    var net' := Deliver(net, p, x, env);
    var n', m := Received(net, p, x, env), p.msg.rreq;
    RreqXStep(c, net, p, x, env);
    hide Receive, Received, Deliver, XStep, NodeOk, MsgOk, NoExpiry, RreqOut, Within;
    StepInv(c, net, net', x, p.from, c.o, c.d, m.hop);
    assert RreqOk(c, net, p) by {
      assert MsgOk(c, net, p);
    }
    assert RreqOk(c, net', p) by {
      assert MsgOk(c, net', p);
    }
    forall out | out in n'.outbox ensures MsgOk(c, net', Packet(x, out.to, out.ttl, out.msg)) {
      RreqOutMsg(c, net', x, out, p);
    }
    AssembleInv(c, net, p, x, env);
  }

  lemma RreqXStep(c: Disc, net: Net, p: Packet, x: Addr, env: Env)
    requires Inv(c, net) && CanDeliver(c, net, p, x, env) && p.msg.RreqMsg? && x != c.o && x != p.from
    ensures var net', m, n' := Deliver(net, p, x, env), p.msg.rreq, Received(net, p, x, env);
            && XStep(c, net, net', x, p.from, c.o, c.d, m.hop) && net'.nodes[x] == n'
            && forall out :: out in n'.outbox ==> RreqOut(c, n', out, p.ttl, m)
  {
    hide Inv, Receive, NodeStep, RreqOut;
    var net' := Deliver(net, p, x, env);
    var n, n', m := net.nodes[x].(outbox := []), net'.nodes[x], p.msg.rreq;
    InvParts(c, net, p, x);
    NodeOkLocal(c, net, x);
    RreqNode(c, n, p.from, p.ttl, m, env, SeqFor(c, net, c.d));
    SameButOutbox(c, net.nodes[x], n', p.from, c.o, c.d, c.srcSeq, m.hop);
    hide NodeOk, LocalOk, Within, Answered;
  }

  lemma SameButOutbox(c: Disc, n: Node, n': Node, from: Addr, z: Addr, w: Addr, seqNum: u32, h: int)
    requires NodeStep(c, n.(outbox := []), n', from, z, w, seqNum, h)
    ensures NodeStep(c, n, n', from, z, w, seqNum, h)
  {
  }

  lemma RreqOutMsg(c: Disc, net: Net, x: Addr, out: Out, p: Packet)
    requires DiscOk(c) && x in net.nodes && NodeOk(c, net, x) && x != c.o
    requires p.msg.RreqMsg? && RreqOk(c, net, p) && RreqOut(c, net.nodes[x], out, p.ttl, p.msg.rreq)
    ensures MsgOk(c, net, Packet(x, out.to, out.ttl, out.msg))
  {
    if Rebroadcast(c, net.nodes[x], out, p.ttl, p.msg.rreq) {
      NewRebroadcast(c, net, x, out, p);
    } else if out.msg.RrepMsg? {
      assert Answered(c, net);
      hide Answered, PairOk, RreqOk, Rebroadcast, MsgOk;
      if x == c.d {
        NewAnswer(c, net, x, out, c.d, c.o, 0);
      } else {
        var t := net.nodes[x].table;
        assert EntryOk(c, net, x, c.d);
        if AnswerOut(net.nodes[x], out, c.d, c.o, t[c.d].seqNum, t[c.d].hop) {
          NewAnswer(c, net, x, out, c.d, c.o, t[c.d].hop);
        } else {
          NewAnswer(c, net, x, out, c.o, c.d, t[c.o].hop);
        }
      }
    }
  }

  /** All nodes and all old copies after a step of x. */
  lemma StepInv(c: Disc, net: Net, net': Net, x: Addr, from: Addr, z: Addr, w: Addr, h: int)
    requires Inv(c, net) && XStep(c, net, net', x, from, z, w, h)
    ensures x in net'.nodes && c.o in net'.nodes && !net'.nodes[c.o].reboot
    ensures forall y :: y in net'.nodes ==> NodeOk(c, net', y)
    ensures forall p :: p in net.msgs ==> MsgOk(c, net', p)
  {
    assert NodeOk(c, net, x);
    assert !net'.nodes[c.o].reboot;
    forall y | y in net'.nodes ensures NodeOk(c, net', y) {
      if y == x {
        XStepNode(c, net, net', x, from, z, w, h);
      } else {
        XStepOtherNode(c, net, net', x, from, z, w, h, y);
      }
      hide NodeOk;
    }
    forall p | p in net.msgs ensures MsgOk(c, net', p) {
      XStepMsg(c, net, net', x, from, z, w, h, p);
      hide MsgOk;
    }
    hide NodeOk, MsgOk;
  }

  lemma InvParts(c: Disc, net: Net, p: Packet, x: Addr)
    requires Inv(c, net) && p in net.msgs && x in net.nodes
    ensures DiscOk(c) && NodeOk(c, net, x)
    ensures p.msg.RreqMsg? ==> RreqOk(c, net, p)
    ensures p.msg.RrepMsg? ==> RrepOk(c, net, p) && Answered(c, net)
  {
  }

  lemma DeliverRREP(c: Disc, net: Net, p: Packet, x: Addr, env: Env)
    requires Inv(c, net) && CanDeliver(c, net, p, x, env) && p.msg.RrepMsg? && x != p.from
    ensures Inv(c, Deliver(net, p, x, env))
  {
    hide Inv, Receive, Received, Deliver, XStep, NodeOk, NoExpiry, Relay, Within, RrepOk;
    var net' := Deliver(net, p, x, env);
    var n', m := Received(net, p, x, env), p.msg.rrep;
    InvParts(c, net, p, x);
    RrepXStep(c, net, p, x, env);
    StepInv(c, net, net', x, p.from, m.dest, m.src, m.hop);
    forall out | out in n'.outbox ensures MsgOk(c, net', Packet(x, out.to, out.ttl, out.msg)) {
      if !out.msg.RerrMsg? {
        RelayMsg(c, net, net', x, out, p);
      }
    }
    hide MsgOk;
    AssembleInv(c, net, p, x, env);
  }

  lemma RrepXStep(c: Disc, net: Net, p: Packet, x: Addr, env: Env)
    requires Inv(c, net) && CanDeliver(c, net, p, x, env) && p.msg.RrepMsg? && x != p.from
    ensures var net', m, n' := Deliver(net, p, x, env), p.msg.rrep, Received(net, p, x, env);
            && XStep(c, net, net', x, p.from, m.dest, m.src, m.hop) && p.to == Some(x)
            && net'.nodes[x] == n'
            && IsActive(n'.table, m.dest) && n'.table[m.dest].hop <= m.hop + 1
            && forall out :: out in n'.outbox ==> out.msg.RerrMsg? || Relay(n', out, m, m.src)
  {
    hide Inv, Receive, NodeStep, Relay;
    var net' := Deliver(net, p, x, env);
    var n, n', m := net.nodes[x].(outbox := []), net'.nodes[x], p.msg.rrep;
    var z, w, h := m.dest, m.src, m.hop;
    InvParts(c, net, p, x);
    NodeOkLocal(c, net, x);
    assert RrepHeard(c, n, p.from, m, z, w);
    RrepNode(c, n, p.from, p.ttl, m, env, z, w);
    SameButOutbox(c, net.nodes[x], n', p.from, z, w, m.destSeq, h);
    LearnedHop(n.table, n'.table, p.from, z, m.destSeq, h);
    hide NodeOk, LocalOk, Learned, Within, Answered;
  }

  /** The whole invariant, from the nodes, the old copies and the new copies. */
  lemma AssembleInv(c: Disc, net: Net, p: Packet, x: Addr, env: Env)
    requires Inv(c, net) && x in net.nodes
    requires var net' := Deliver(net, p, x, env);
             && c.o in net'.nodes && !net'.nodes[c.o].reboot
             && (forall y :: y in net'.nodes ==> NodeOk(c, net', y))
             && (forall q :: q in net.msgs ==> MsgOk(c, net', q))
             && forall out :: out in Received(net, p, x, env).outbox
                              ==> MsgOk(c, net', Packet(x, out.to, out.ttl, out.msg))
    ensures Inv(c, Deliver(net, p, x, env))
  {
    hide Receive, NodeOk, MsgOk;
  }

  lemma RelayMsg(c: Disc, net: Net, net': Net, x: Addr, out: Out, p: Packet)
    requires DiscOk(c) && x in net.nodes && x in net'.nodes && NodeOk(c, net', x) && NodeOk(c, net, x)
    requires p.msg.RrepMsg? && RrepOk(c, net, p) && p.to == Some(x) && MsgOk(c, net', p)
    requires XStep(c, net, net', x, p.from, p.msg.rrep.dest, p.msg.rrep.src, p.msg.rrep.hop)
    requires IsActive(net'.nodes[x].table, p.msg.rrep.dest)
    requires net'.nodes[x].table[p.msg.rrep.dest].hop <= p.msg.rrep.hop + 1
    requires Relay(net'.nodes[x], out, p.msg.rrep, p.msg.rrep.src)
    ensures MsgOk(c, net', Packet(x, out.to, out.ttl, out.msg))
  {
    var m := p.msg.rrep;
    assert x != m.src;
    XStepWithin(c, net, net', x, p.from, m.dest, m.src, m.hop, x, m.src, c.ttl - m.hop - 1);
    NewRelay(c, net', x, out, m, m.dest, m.src);
  }

  /** The originator and the sender drop what they hear of this flood. */
  lemma ReceiveIgnored(n: Node, from: Addr, ttl: int, msg: Msg, env: Env)
    requires n.ip == from || (!n.reboot && msg.RreqMsg? && msg.rreq.src == n.ip)
    ensures Receive(n, from, ttl, msg, env) == n
  {
    hide NeighborUpdate, RebootRREQ, ProcessRREP, ProcessRERR, AnswerRREQ;
  }

  lemma DeliverIgnored(c: Disc, net: Net, p: Packet, x: Addr, env: Env)
    requires Inv(c, net) && CanDeliver(c, net, p, x, env)
    requires x == p.from || (x == c.o && p.msg.RreqMsg?)
    ensures Inv(c, Deliver(net, p, x, env))
  {
    hide Receive;
    var net' := Deliver(net, p, x, env);
    assert NodeOk(c, net, x) && MsgOk(c, net, p);
    ReceiveIgnored(net.nodes[x].(outbox := []), p.from, p.ttl, p.msg, env);
    OutboxIrrelevant(c, net, net', x);
    assert net'.msgs == net.msgs;
    hide NodeOk, MsgOk;
  }

  lemma OutboxIrrelevant(c: Disc, net: Net, net': Net, x: Addr)
    requires x in net.nodes && net'.nodes == net.nodes[x := net.nodes[x].(outbox := [])]
    ensures forall y :: y in net.nodes && NodeOk(c, net, y) ==> NodeOk(c, net', y)
    ensures forall q :: MsgOk(c, net, q) ==> MsgOk(c, net', q)
  {
    assert forall y, z, h :: Within(net, y, z, h) ==> Within(net', y, z, h);
    assert Answered(c, net) ==> Answered(c, net');
    assert forall z :: SeqFor(c, net', z) == SeqFor(c, net, z);
    hide Within, Answered, SeqFor;
  }

  lemma {:induction false} DeliverInv(c: Disc, net: Net, p: Packet, x: Addr, env: Env)
    requires Inv(c, net) && CanDeliver(c, net, p, x, env)
    ensures Inv(c, Deliver(net, p, x, env))
  {
    hide Inv, Deliver;
    if x == p.from || (x == c.o && p.msg.RreqMsg?) {
      DeliverIgnored(c, net, p, x, env);
    } else if p.msg.RreqMsg? {
      DeliverRREQ(c, net, p, x, env);
    } else {
      DeliverRREP(c, net, p, x, env);
    }
  }
  // ---- whole runs ----

  datatype Delivery = Delivery(p: Packet, x: Addr, env: Env)

  /** The networks along the deliveries ds, from the first to the last. */
  ghost predicate Run(c: Disc, nets: seq<Net>, ds: seq<Delivery>) {
    && |nets| == |ds| + 1
    && forall i {:trigger ds[i]} :: 0 <= i < |ds| ==>
         && CanDeliver(c, nets[i], ds[i].p, ds[i].x, ds[i].env)
         && nets[i + 1] == Deliver(nets[i], ds[i].p, ds[i].x, ds[i].env)
  }

  lemma {:induction false} RunInv(c: Disc, nets: seq<Net>, ds: seq<Delivery>, k: nat)
    requires Run(c, nets, ds) && Inv(c, nets[0]) && k <= |ds|
    ensures Inv(c, nets[k])
  {
    hide Inv, Deliver, NoExpiry;
    if k > 0 {
      var d := ds[k - 1];
      RunInv(c, nets, ds, k - 1);
      DeliverInv(c, nets[k - 1], d.p, d.x, d.env);
    }
  }

  /** Every route to z leads to z itself or to a node strictly closer to z. */
  ghost predicate Descends(net: Net, z: Addr) {
    forall x :: x in net.nodes && z in net.nodes[x].table ==>
      var e := net.nodes[x].table[z];
      e.next == z || (e.next in net.nodes && z in net.nodes[e.next].table && net.nodes[e.next].table[z].hop < e.hop)
  }

  /** The node reached from x after at most `steps` next hops toward z. */
  ghost function Follow(net: Net, x: Addr, z: Addr, steps: nat): Addr
    decreases steps
  {
    if steps == 0 || x == z || x !in net.nodes || z !in net.nodes[x].table then x
    else Follow(net, net.nodes[x].table[z].next, z, steps - 1)
  }

  lemma {:induction false} DescendingReaches(net: Net, x: Addr, z: Addr, steps: nat)
    requires Descends(net, z)
    requires forall y :: y in net.nodes && z in net.nodes[y].table ==> 1 <= net.nodes[y].table[z].hop
    requires x in net.nodes && z in net.nodes[x].table && net.nodes[x].table[z].hop <= steps
    ensures Follow(net, x, z, steps) == z
    decreases steps
  {
    var next := net.nodes[x].table[z].next;
    if x != z && next != z {
      DescendingReaches(net, next, z, steps - 1);
    }
  }

  /** Loop freedom: after any deliveries, next hops for o and for d descend and end at o and at d. */
  lemma {:induction false} LoopFree(c: Disc, nets: seq<Net>, ds: seq<Delivery>, k: nat, z: Addr)
    requires Run(c, nets, ds) && Start(c, nets[0]) && k <= |ds| && (z == c.o || z == c.d)
    ensures Descends(nets[k], z)
    ensures forall x :: x in nets[k].nodes && z in nets[k].nodes[x].table
              ==> Follow(nets[k], x, z, nets[k].nodes[x].table[z].hop) == z
  {
    var net := nets[k];
    StartInv(c, nets[0]);
    RunInv(c, nets, ds, k);
    hide Start, Run;
    forall x | x in net.nodes ensures EntryOk(c, net, x, z) {
      assert NodeOk(c, net, x);
    }
    hide Inv;
    assert Descends(net, z);
    forall x | x in net.nodes && z in net.nodes[x].table ensures Follow(net, x, z, net.nodes[x].table[z].hop) == z {
      DescendingReaches(net, x, z, net.nodes[x].table[z].hop);
    }
  }
}
