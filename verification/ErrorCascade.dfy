/**
 Route errors in a network of daemons: what a RERR makes its receiver forget and pass on, and why
 the errors set off by any set of initial RERRs die out.
 */
module ErrorCascade {
  import opened Base
  import opened Params
  import opened Node
  import opened Steps
  import opened Effects

  function DestsOf(l: seq<Unreach>): set<Addr> {
    set u | u in l :: u.dest
  }

  ghost predicate NoDuplicates(l: seq<Unreach>) {
    forall i, j :: 0 <= i < j < |l| ==> l[i].dest != l[j].dest
  }

  /** The entries that a RERR from prevHop about the destinations ds hits. */
  function HitSet(t: Table, ds: set<Addr>, prevHop: Addr): set<Addr> {
    set d | d in ds && Hit(t, d, prevHop)
  }

  // ---- one RERR at one node ----

  lemma InvalidateOneTable(n: Node, u: Unreach, now: int)
    requires u.dest in n.table
    ensures var t' := InvalidateOne(n, u, now).table;
            && t'.Keys == n.table.Keys && (forall k :: k in t' && k != u.dest ==> t'[k] == n.table[k])
            && t'[u.dest].hop == INFINITY && t'[u.dest].flag.Invalid? && t'[u.dest].seqNum == u.seqNum
            && t'[u.dest].prec == n.table[u.dest].prec
  {
  }

  lemma {:induction false} NewDestsExact(n: Node, dests: seq<Unreach>, prevHop: Addr, now: int)
    ensures var l, t' := NewDests(n, dests, prevHop, now), UpdateValid(n, dests, prevHop, now).table;
            && NoDuplicates(l) && DestsOf(l) == HitSet(n.table, DestsOf(dests), prevHop)
            && t'.Keys == n.table.Keys
            && (forall k :: k in t' ==>
                  if k in DestsOf(l) then t'[k].hop == INFINITY && t'[k].flag.Invalid? && t'[k].prec == n.table[k].prec
                  else t'[k] == n.table[k])
            && (forall u :: u in l ==> u in dests && u.dest in t' && t'[u.dest].seqNum == u.seqNum)
    decreases dests
  {
    if dests != [] {
      var u := dests[0];
      var rest := dests[1..];
      assert DestsOf(dests) == {u.dest} + DestsOf(rest);
      if Hit(n.table, u.dest, prevHop) {
        InvalidateOneTable(n, u, now);
        hide InvalidateOne;
        var n1 := InvalidateOne(n, u, now);
        NewDestsExact(n1, rest, prevHop, now);
        var l1 := NewDests(n1, rest, prevHop, now);
        assert HitSet(n1.table, DestsOf(rest), prevHop) == HitSet(n.table, DestsOf(rest), prevHop) - {u.dest};
        NotListedAgain(l1, u);
        assert DestsOf([u] + l1) == {u.dest} + DestsOf(l1);
      } else {
        NewDestsExact(n, rest, prevHop, now);
      }
    }
  }

  lemma NotListedAgain(l: seq<Unreach>, u: Unreach)
    requires NoDuplicates(l) && u.dest !in DestsOf(l)
    ensures NoDuplicates([u] + l)
  {
  }

  ghost predicate SeqOnly(t: Table, t': Table) {
    t'.Keys == t.Keys && forall k :: k in t ==> t'[k] == t[k].(seqNum := t'[k].seqNum)
  }

  lemma {:induction false} UpdateInvalidSeqOnly(t: Table, dests: seq<Unreach>)
    ensures SeqOnly(t, UpdateInvalid(t, dests))
    decreases dests
  {
    if dests != [] {
      var u := dests[0];
      var t1 := if u.dest in t && t[u.dest].hop == INFINITY && u.seqNum > t[u.dest].seqNum
                then t[u.dest := t[u.dest].(seqNum := u.seqNum)] else t;
      UpdateInvalidSeqOnly(t1, dests[1..]);
    }
  }

  /** The table when the listed destinations are looked at: the sender's own entry is refreshed first. */
  function Before(n: Node, from: Addr, now: int): Table {
    NeighborTable(n.table, from, 0, now + NEIGHBOR_LIFE)
  }

  lemma RerrSteps(n: Node, from: Addr, m: Rerr, env: Env)
    requires !n.reboot && !m.nFlag
    ensures var n1 := NeighborUpdate(n, from, from, 0, env.now + NEIGHBOR_LIFE, env.now);
            var n2 := n1.(table := UpdateInvalid(n1.table, m.dests));
            && ProcessRERR(n, from, m, env) == ForwardRERR(n2, from, m, env.now)
            && n1.table == Before(n, from, env.now) && n2.outbox == n.outbox && n2.ip == n.ip && n2.reboot == n.reboot
  {
    hide NeighborUpdate, NeighborTable, UpdateInvalid, ForwardRERR;
    NeighborUpdateEffect(n, from, from, 0, env.now + NEIGHBOR_LIFE, env.now);
  }

  lemma ForwardShape(n: Node, from: Addr, m: Rerr, now: int)
    ensures var n', l := ForwardRERR(n, from, m, now), NewDests(n, m.dests, from, now);
            && n'.table == UpdateValid(n, m.dests, from, now).table && n'.ip == n.ip && n'.reboot == n.reboot
            && n'.outbox == n.outbox + if HasPrec(n.table, l)
                                       then [Out(None, 1, RerrMsg(Rerr(m.nFlag, U8(|l|), l)))] else []
  {
    hide UpdateValid, NewDests, HasPrec;
    UpdateValidFrame(n, m.dests, from, now);
    assert n.outbox + [] == n.outbox;
  }

  lemma SeqOnlyHits(t: Table, t': Table, ds: set<Addr>, prevHop: Addr)
    requires SeqOnly(t, t')
    ensures HitSet(t', ds, prevHop) == HitSet(t, ds, prevHop)
    ensures forall l :: HasPrec(t', l) == HasPrec(t, l)
  {
  }

  /**
   A received RERR (without the N flag) is answered by at most one new RERR. That one lists, without
   duplicates, exactly the destinations that stopped being live, each with the sequence number now
   stored; and it is sent exactly if one of them has a precursor.
   */
  lemma {:induction false} NewRerrExact(n: Node, from: Addr, m: Rerr, env: Env) returns (l: seq<Unreach>)
    requires !n.reboot && !m.nFlag && n.outbox == []
    ensures var t, n' := Before(n, from, env.now), ProcessRERR(n, from, m, env);
            && NoDuplicates(l) && DestsOf(l) == HitSet(t, DestsOf(m.dests), from)
            && (forall k :: IsLive(t, k) && !IsLive(n'.table, k) <==> k in DestsOf(l))
            && (forall u :: u in l ==> u.dest in n'.table && n'.table[u.dest].seqNum == u.seqNum)
            && n'.outbox == if exists u :: u in l && PrecCount(t, u.dest) > 0
                            then [Out(None, 1, RerrMsg(Rerr(false, U8(|l|), l)))] else []
    ensures var t, n' := Before(n, from, env.now), ProcessRERR(n, from, m, env);
            n'.table.Keys == t.Keys && n'.ip == n.ip && n'.reboot == n.reboot
            && forall k :: IsLive(n'.table, k) ==> IsLive(t, k) && n'.table[k].next == t[k].next
  {
    hide NeighborUpdate, NeighborTable, UpdateInvalid, UpdateValid, NewDests, ForwardRERR, ProcessRERR, HitSet,
         HasPrec, NoDuplicates, DestsOf, SeqOnly, IsLive;
    var n1 := NeighborUpdate(n, from, from, 0, env.now + NEIGHBOR_LIFE, env.now);
    var n2 := n1.(table := UpdateInvalid(n1.table, m.dests));
    RerrSteps(n, from, m, env);
    UpdateInvalidSeqOnly(n1.table, m.dests);
    SeqOnlyHits(n1.table, n2.table, DestsOf(m.dests), from);
    l := NewDests(n2, m.dests, from, env.now);
    ForwardShape(n2, from, m, env.now);
    HasPrecMembers(n1.table, l);
    ListedAreLost(n1.table, n2, m.dests, from, env.now);
  }

  /** The destinations of the new RERR are exactly those that stop being live. */
  lemma ListedAreLost(t: Table, n: Node, dests: seq<Unreach>, from: Addr, now: int)
    requires SeqOnly(t, n.table)
    ensures var l, t' := NewDests(n, dests, from, now), UpdateValid(n, dests, from, now).table;
            && NoDuplicates(l) && DestsOf(l) == HitSet(n.table, DestsOf(dests), from) && t'.Keys == t.Keys
            && (forall k :: IsLive(t, k) && !IsLive(t', k) <==> k in DestsOf(l))
            && (forall u :: u in l ==> u.dest in t' && t'[u.dest].seqNum == u.seqNum)
            && forall k :: IsLive(t', k) ==> IsLive(t, k) && t'[k].next == t[k].next
  {
    hide UpdateValid, NewDests, NoDuplicates, DestsOf, HitSet, SeqOnly;
    NewDestsExact(n, dests, from, now);
    HitsLive(n.table, DestsOf(dests), from);
    SeqOnlyLive(t, n.table);
  }

  lemma SeqOnlyLive(t: Table, t': Table)
    requires SeqOnly(t, t')
    ensures t'.Keys == t.Keys && forall k :: IsLive(t', k) <==> IsLive(t, k)
    ensures forall k :: k in t ==> t'[k].next == t[k].next
  {
  }

  lemma HitsLive(t: Table, ds: set<Addr>, prevHop: Addr)
    ensures forall k :: k in HitSet(t, ds, prevHop) ==> IsLive(t, k) && t[k].next == prevHop && k in ds
  {
  }

  lemma HasPrecMembers(t: Table, l: seq<Unreach>)
    ensures HasPrec(t, l) <==> exists u :: u in l && PrecCount(t, u.dest) > 0
  {
  }
  // ---- the network ----

  datatype Packet = Packet(from: Addr, to: Option<Addr>, rerr: Rerr)

  /** Packets stay in flight: each may be delivered any number of times, to any neighbours, or never. */
  datatype Net = Net(nodes: map<Addr, Node>, msgs: set<Packet>)

  ghost predicate CanDeliver(net: Net, p: Packet, x: Addr) {
    p in net.msgs && x in net.nodes && (p.to.Some? ==> p.to.value == x)
  }

  function Received(net: Net, p: Packet, x: Addr, env: Env): Node
    requires x in net.nodes
  {
    Receive(net.nodes[x].(outbox := []), p.from, 1, RerrMsg(p.rerr), env)
  }

  function Deliver(net: Net, p: Packet, x: Addr, env: Env): Net
    requires x in net.nodes
  {
    var n := Received(net, p, x, env);
    Net(net.nodes[x := n],
        net.msgs + set out | out in n.outbox && out.msg.RerrMsg? :: Packet(x, out.to, out.msg.rerr))
  }

  /** No node routes to itself, no RERR lists its own sender, and none carries the N flag. */
  ghost predicate Inv(net: Net) {
    && (forall x :: x in net.nodes ==> net.nodes[x].ip == x && x !in net.nodes[x].table)
    && (forall p :: p in net.msgs ==> !p.rerr.nFlag && p.from !in DestsOf(p.rerr.dests))
  }

  /** The live entries whose next hop is not the destination itself: what a RERR can still take away. */
  function Indirect(t: Table): set<Addr> {
    set k | k in t && IsLive(t, k) && t[k].next != k
  }

  lemma SmallerSet<T>(a: set<T>, b: set<T>)
    requires a <= b
    ensures |a| <= |b|
  {
    if a != b {
      assert |b - a| > 0 && b == a + (b - a);
    }
  }

  /** Refreshing the sender's own entry makes it direct and changes no other. */
  lemma NeighborIndirect(t: Table, nb: Addr, seqNum: u32, life: int)
    ensures Indirect(NeighborTable(t, nb, seqNum, life)) == Indirect(t) - {nb}
    ensures forall k :: PrecCount(NeighborTable(t, nb, seqNum, life), k) == PrecCount(t, k)
  {
  }

  lemma RebootIndirect(n: Node, from: Addr, m: Rerr, env: Env)
    requires n.reboot && n.outbox == [] && n.ip !in n.table && n.ip != from
    ensures var n' := ProcessRERR(n, from, m, env);
            && Indirect(n'.table) <= Indirect(n.table) && n'.outbox == [] && n'.ip == n.ip && n'.ip !in n'.table
  {
    hide NeighborTable, UpdateInvalid, UpdateValid;
    var t1 := NeighborTable(n.table, from, 0, env.now + NEIGHBOR_LIFE);
    var n2 := n.(table := UpdateInvalid(t1, m.dests));
    NeighborIndirect(n.table, from, 0, env.now + NEIGHBOR_LIFE);
    NeighborKeys(n.table, from, 0, env.now + NEIGHBOR_LIFE);
    UpdateInvalidSeqOnly(t1, m.dests);
    assert Indirect(n2.table) == Indirect(t1);
    UpdateValidFrame(n2, m.dests, from, env.now);
    NewDestsExact(n2, m.dests, from, env.now);
    assert Indirect(ProcessRERR(n, from, m, env).table) <= Indirect(n2.table);
    hide Indirect;
  }

  lemma NeighborKeys(t: Table, nb: Addr, seqNum: u32, life: int)
    ensures NeighborTable(t, nb, seqNum, life).Keys == t.Keys + {nb}
  {
  }

  /** A running node's indirect entries after a RERR, and whether it passes the error on. */
  lemma RunningExact(n: Node, from: Addr, m: Rerr, env: Env)
    requires n.outbox == [] && !m.nFlag && !n.reboot
    ensures var hits, n' := HitSet(Before(n, from, env.now), DestsOf(m.dests), from), ProcessRERR(n, from, m, env);
            && Indirect(n'.table) == Indirect(n.table) - {from} - hits
            && hits <= Indirect(n.table) + {from}
            && |n'.outbox| == (if exists d :: d in hits && PrecCount(n.table, d) > 0 then 1 else 0)
            && n'.table.Keys == n.table.Keys + {from} && n'.ip == n.ip
            && forall out :: out in n'.outbox && out.msg.RerrMsg? ==>
                 !out.msg.rerr.nFlag && DestsOf(out.msg.rerr.dests) == hits
  {
    hide ProcessRERR, NeighborTable, HitSet;
    var l := NewRerrExact(n, from, m, env);
    var t, n', hits := Before(n, from, env.now), ProcessRERR(n, from, m, env), DestsOf(l);
    NeighborKeys(n.table, from, 0, env.now + NEIGHBOR_LIFE);
    NeighborIndirect(n.table, from, 0, env.now + NEIGHBOR_LIFE);
    HitsLive(t, DestsOf(m.dests), from);
    LostIndirect(t, n'.table, hits);
    assert (exists u :: u in l && PrecCount(t, u.dest) > 0) <==> exists d :: d in hits && PrecCount(n.table, d) > 0 by {
      if d :| d in hits && PrecCount(n.table, d) > 0 {
        var u :| u in l && u.dest == d;
        assert PrecCount(t, u.dest) > 0;
      }
      if u :| u in l && PrecCount(t, u.dest) > 0 {
        assert u.dest in hits && PrecCount(n.table, u.dest) > 0;
      }
    }
    assert hits <= Indirect(t) + {from};
  }

  lemma LostIndirect(t: Table, t': Table, lost: set<Addr>)
    requires t'.Keys == t.Keys && forall k :: IsLive(t, k) && !IsLive(t', k) <==> k in lost
    requires forall k :: IsLive(t', k) ==> IsLive(t, k) && t'[k].next == t[k].next
    ensures Indirect(t') == Indirect(t) - lost
  {
  }

  /** A RERR with the N flag about one destination that is used over its sender and has precursors. */
  ghost predicate RepairNotice(n: Node, from: Addr, m: Rerr, now: int) {
    && m.destCnt == 1 && m.dests != []
    && var d, t := m.dests[0].dest, Before(n, from, now);
       FindActive(t, d, now) && t[d].next == from && PrecCount(n.table, d) > 0
  }

  /**
   A RERR that is passed on although it costs nothing. With the N flag nothing is lost but what the
   refreshed sender was; without it the RERR takes only the direct route to its sender.
   */
  ghost predicate FreeError(n: Node, from: Addr, m: Rerr, now: int) {
    && !n.reboot && from != n.ip && from !in Indirect(n.table)
    && if m.nFlag then RepairNotice(n, from, m, now)
       else HitSet(Before(n, from, now), DestsOf(m.dests), from) == {from} && PrecCount(n.table, from) > 0
  }

  /** With the N flag: the sender becomes direct, sequence numbers may move, and one RERR may go on. */
  lemma RepairExact(n: Node, from: Addr, m: Rerr, env: Env)
    requires n.outbox == [] && m.nFlag && !n.reboot
    ensures var n' := ProcessRERR(n, from, m, env);
            && Indirect(n'.table) == Indirect(n.table) - {from}
            && |n'.outbox| == if RepairNotice(n, from, m, env.now) then 1 else 0
  {
    hide NeighborUpdate, NeighborTable, UpdateInvalid, LocalRepairRERR;
    var life := env.now + NEIGHBOR_LIFE;
    NeighborUpdateEffect(n, from, from, 0, life, env.now);
    NeighborIndirect(n.table, from, 0, life);
    var n1 := NeighborUpdate(n, from, from, 0, life, env.now);
    UpdateInvalidSeqOnly(n1.table, m.dests);
    var n2 := n1.(table := UpdateInvalid(n1.table, m.dests));
    LocalRepairExact(n2, from, m, env.now);
    SameIndirect(n1.table, n2.table);
    SameIndirect(n2.table, LocalRepairRERR(n2, from, m, env.now).table);
    if m.dests != [] {
      SeqOnlyFind(n1.table, n2.table, m.dests[0].dest, env.now);
    }
    hide Indirect, SeqOnly, FindActive;
  }

  lemma SameIndirect(t: Table, t': Table)
    requires SeqOnly(t, t')
    ensures Indirect(t') == Indirect(t)
  {
    assert forall k :: k in t ==> t'[k] == t[k].(seqNum := t'[k].seqNum);
  }

  lemma SeqOnlyFind(t: Table, t': Table, d: Addr, now: int)
    requires SeqOnly(t, t')
    ensures FindActive(t', d, now) <==> FindActive(t, d, now)
    ensures d in t ==> d in t' && t'[d].next == t[d].next
    ensures PrecCount(t', d) == PrecCount(t, d)
  {
    assert d in t ==> t'[d] == t[d].(seqNum := t'[d].seqNum);
  }

  lemma LocalRepairExact(n: Node, from: Addr, m: Rerr, now: int)
    requires n.outbox == []
    ensures var n' := LocalRepairRERR(n, from, m, now);
            && SeqOnly(n.table, n'.table)
            && |n'.outbox| == if m.destCnt == 1 && m.dests != [] && FindActive(n.table, m.dests[0].dest, now)
                                 && n.table[m.dests[0].dest].next == from && PrecCount(n.table, m.dests[0].dest) > 0
                              then 1 else 0
  {
    hide GenerateRERR;
    if |m.dests| > 0 && m.dests[0].dest in n.table {
      var d := m.dests[0].dest;
      var n1 := n.(table := n.table[d := n.table[d].(seqNum := m.dests[0].seqNum)]);
      GenerateRERRFrame(n1, d, true, false);
      GenerateSends(n1, d, true);
    }
  }

  lemma GenerateSends(n: Node, d: Addr, nFlag: bool)
    requires n.outbox == []
    ensures |GenerateRERR(n, d, nFlag, false).outbox| == if PrecCount(n.table, d) > 0 then 1 else 0
  {
  }

  /** One reception: a RERR sent on is paid for by an indirect entry that is gone, unless it is free. */
  lemma {:induction false} ReceivePaysIff(n: Node, from: Addr, m: Rerr, env: Env)
    requires n.outbox == [] && n.ip !in n.table
    ensures var n' := Receive(n, from, 1, RerrMsg(m), env);
            |Indirect(n'.table)| + |n'.outbox| <= |Indirect(n.table)| <==> !FreeError(n, from, m, env.now)
  {
    hide ProcessRERR, NeighborTable, HitSet, Indirect, DestsOf, Before;
    if from != n.ip {
      if n.reboot {
        RebootIndirect(n, from, m, env);
        SmallerSet(Indirect(ProcessRERR(n, from, m, env).table), Indirect(n.table));
      } else if m.nFlag {
        hide FreeError;
        RepairPaysIff(n, from, m, env);
      } else {
        RunningExact(n, from, m, env);
        var hits := HitSet(Before(n, from, env.now), DestsOf(m.dests), from);
        Balance(Indirect(n.table), hits, from);
      }
    }
  }

  lemma RepairPaysIff(n: Node, from: Addr, m: Rerr, env: Env)
    requires n.outbox == [] && m.nFlag && !n.reboot && from != n.ip
    ensures var n' := ProcessRERR(n, from, m, env);
            |Indirect(n'.table)| + |n'.outbox| <= |Indirect(n.table)| <==> !FreeError(n, from, m, env.now)
  {
    hide ProcessRERR, RepairNotice, Indirect;
    RepairExact(n, from, m, env);
    Balance(Indirect(n.table), {}, from);
    assert Indirect(n.table) - {from} - {} == Indirect(n.table) - {from};
  }

  /** Taking away {from} + hits makes a set smaller unless it contains none of them. */
  lemma Balance(indirect: set<Addr>, hits: set<Addr>, from: Addr)
    requires hits <= indirect + {from}
    ensures |indirect - {from} - hits| <= |indirect|
    ensures |indirect - {from} - hits| == |indirect| <==> from !in indirect && hits <= {from}
  {
  }

  /** In particular if the RERR does not list its sender; what is sent on does not list its own sender either. */
  lemma {:induction false} ReceivePays(n: Node, from: Addr, m: Rerr, env: Env)
    requires n.outbox == [] && n.ip !in n.table && !m.nFlag && from !in DestsOf(m.dests)
    ensures var n' := Receive(n, from, 1, RerrMsg(m), env);
            && |Indirect(n'.table)| + |n'.outbox| <= |Indirect(n.table)|
            && n'.ip == n.ip && n'.ip !in n'.table
            && forall out :: out in n'.outbox && out.msg.RerrMsg? ==>
                 !out.msg.rerr.nFlag && n.ip !in DestsOf(out.msg.rerr.dests)
  {
    ReceivePaysIff(n, from, m, env);
    assert from !in HitSet(Before(n, from, env.now), DestsOf(m.dests), from);
    hide ProcessRERR, NeighborTable, HitSet, Indirect, Before;
    if from != n.ip {
      if n.reboot {
        RebootIndirect(n, from, m, env);
      } else {
        RunningExact(n, from, m, env);
      }
    }
  }

  function Potential(nodes: map<Addr, Node>, ks: seq<Addr>): nat
    requires forall k :: k in ks ==> k in nodes
  {
    if ks == [] then 0 else |Indirect(nodes[ks[0]].table)| + Potential(nodes, ks[1..])
  }

  /** Indirect live entries in the whole network. */
  function IndirectTotal(net: Net): nat {
    Potential(net.nodes, Keys(net.nodes.Keys))
  }

  lemma {:induction false} PotentialUpdate(nodes: map<Addr, Node>, ks: seq<Addr>, x: Addr, n: Node)
    requires x in nodes && forall k :: k in ks ==> k in nodes
    requires forall i, j :: 0 <= i < j < |ks| ==> ks[i] != ks[j]
    ensures Potential(nodes[x := n], ks)
         == Potential(nodes, ks) + if x in ks then |Indirect(n.table)| - |Indirect(nodes[x].table)| else 0
  {
    hide Indirect;
    if ks != [] {
      PotentialUpdate(nodes, ks[1..], x, n);
      assert x in ks <==> x == ks[0] || x in ks[1..];
      assert ks[0] !in ks[1..];
    }
  }

  lemma DeliverKeeps(net: Net, p: Packet, x: Addr, env: Env)
    requires Inv(net) && CanDeliver(net, p, x)
    ensures Inv(Deliver(net, p, x, env))
  {
    hide Receive, Indirect;
    ReceivePays(net.nodes[x].(outbox := []), p.from, p.rerr, env);
  }

  lemma DeliverPays(net: Net, p: Packet, x: Addr, env: Env)
    requires Inv(net) && CanDeliver(net, p, x)
    ensures IndirectTotal(Deliver(net, p, x, env)) + |Received(net, p, x, env).outbox| <= IndirectTotal(net)
  {
    hide Receive, Indirect, Potential, Keys;
    var n, n', net' := net.nodes[x], Received(net, p, x, env), Deliver(net, p, x, env);
    ReceivePays(n.(outbox := []), p.from, p.rerr, env);
    hide Inv;
    PotentialUpdate(net.nodes, Keys(net.nodes.Keys), x, n');
    assert net'.nodes.Keys == net.nodes.Keys;
  }

  datatype Delivery = Delivery(p: Packet, x: Addr, env: Env)

  /** The networks along the deliveries ds, from the first to the last. */
  ghost predicate Run(nets: seq<Net>, ds: seq<Delivery>) {
    && |nets| == |ds| + 1
    && forall i {:trigger ds[i]} :: 0 <= i < |ds| ==>
         CanDeliver(nets[i], ds[i].p, ds[i].x) && nets[i + 1] == Deliver(nets[i], ds[i].p, ds[i].x, ds[i].env)
  }

  /** RERRs sent onward in the first k deliveries. */
  ghost function SentOnward(nets: seq<Net>, ds: seq<Delivery>, k: nat): nat
    requires k <= |ds| < |nets| && forall i :: 0 <= i < |ds| ==> ds[i].x in nets[i].nodes
  {
    if k == 0 then 0
    else
      var d := ds[k - 1];
      SentOnward(nets, ds, k - 1) + |Received(nets[k - 1], d.p, d.x, d.env).outbox|
  }

  /**
   The cascade dies out: whatever is delivered, in any order and any number of times, the RERRs sent
   onward and the indirect entries left together never exceed the indirect entries at the start.
   */
  lemma {:induction false} CascadeDiesOut(nets: seq<Net>, ds: seq<Delivery>, k: nat)
    requires Run(nets, ds) && Inv(nets[0]) && k <= |ds|
    ensures Inv(nets[k]) && SentOnward(nets, ds, k) + IndirectTotal(nets[k]) <= IndirectTotal(nets[0])
  {
    hide Inv, Deliver, Received, IndirectTotal;
    if k > 0 {
      var d := ds[k - 1];
      CascadeDiesOut(nets, ds, k - 1);
      DeliverPays(nets[k - 1], d.p, d.x, d.env);
      DeliverKeeps(nets[k - 1], d.p, d.x, d.env);
    }
  }

  /** For example: a neighbour that reports itself makes its receiver pass the error on for free. */
  lemma SelfReportIsFree(n: Node, env: Env, s: Addr, prec: seq<Addr>, seqNum: u32)
    requires !n.reboot && n.outbox == [] && n.ip != s && prec != []
    requires n.table == map[s := Entry(0, 1, 0, s, prec, env.now + 1, Active)]
    ensures var m := Rerr(false, 1, [Unreach(s, seqNum)]);
            FreeError(n, s, m, env.now) && Indirect(n.table) == {} && |Receive(n, s, 1, RerrMsg(m), env).outbox| == 1
  {
    var m := Rerr(false, 1, [Unreach(s, seqNum)]);
    var t := Before(n, s, env.now);
    assert Unreach(s, seqNum) in m.dests && Hit(t, s, s);
    assert HitSet(t, DestsOf(m.dests), s) == {s};
    RunningExact(n, s, m, env);
    assert s in HitSet(t, DestsOf(m.dests), s) && PrecCount(n.table, s) > 0;
    hide ProcessRERR;
  }
}
