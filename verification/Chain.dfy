/**
 A flood and its answer along a chain of running nodes: every copy is relayed up to the destination,
 the answer is relayed back, and all nodes of the chain end with routes to both end points.
 */
module Chain {
  import opened Base
  import opened Node
  import opened Steps
  import opened Lookups
  import opened Messages
  import opened Learning
  import opened Precursors
  import opened Discovery

  // ---- one node ----

  /** d is as it was: its number, and whether there is an active route. */
  predicate SameRoute(t: Table, t': Table, d: Addr) {
    (d in t' <==> d in t) && (d in t ==> CoreOf(t'[d]) == CoreOf(t[d]))
  }

  /** How long a node uses the route back to the originator of a flood it has heard from `from`. */
  function BackUntil(t: Table, from: Addr, m: Rreq, now: int): int {
    if m.src == from then now + 4000 else ReverseEnd(t, m, now)
  }

  /** Can a running node take part in the flood? Its news of the originator must be old or worse. */
  ghost predicate Relays(n: Node, from: Addr, m: Rreq) {
    && !n.reboot && n.outbox == [] && !Ignored(n, m) && from != n.ip && from != m.dest && m.src != m.dest && from != 0
    && (from == m.src || Fresh(n.table, m.src, m.srcSeq, m.hop + 1)) && m.hop < 255
  }

  lemma LearntLookup(n: Node, from: Addr, m: Rreq, now: int)
    requires Relays(n, from, m)
    ensures var t := LearntRreq(n, from, m, now);
            && SameRoute(n.table, t, m.dest)
            && RouteIs(t, m.src, from, if from == m.src then 1 else m.hop + 1, m.srcSeq,
                       BackUntil(n.table, from, m, now))
  {
    hide LearntRreq;
    LearntRreqIs(n, from, m, now, m.dest);
    LearntRreqIs(n, from, m, now, m.src);
  }

  /** A node that is not the destination and has no active route that is new enough. */
  lemma FloodRelayed(n: Node, from: Addr, ttl: int, m: Rreq, env: Env)
    requires Relays(n, from, m) && m.dest != n.ip && 1 < ttl && !FindValid(n.table, m.dest, m.destSeq)
    ensures var n' := Receive(n, from, ttl, RreqMsg(m), env);
            && n'.ip == n.ip && !n'.reboot && SameRoute(n.table, n'.table, m.dest)
            && Out(None, ttl - 1, RreqMsg(m.(hop := m.hop + 1, destSeq := RaisedDestSeq(n.table, m)))) in n'.outbox
            && LeadsTo(n'.table, m.src, from, if from == m.src then 1 else m.hop + 1, m.srcSeq,
                       BackUntil(n.table, from, m, env.now))
  {
    hide Receive, LearntRreq, RepairRerr, SentToward, AnswerTo, GratuitousTo, Answers;
    LearntLookup(n, from, m, env.now);
    var t := LearntRreq(n, from, m, env.now);
    RreqSent(n, from, ttl, m, env);
    RreqFrame(n, from, ttl, m, env);
    RreqTeaches(n, from, ttl, m, env, m.dest);
    RreqTeaches(n, from, ttl, m, env, m.src);
    var out := Out(None, ttl - 1, RreqMsg(m.(hop := m.hop + 1, destSeq := RaisedDestSeq(n.table, m))));
    assert RreqReaction(n, ttl, m, t, env) == [out];
  }

  /** The destination itself, if it is not so far away that the reverse route has expired at once. */
  lemma FloodAnswered(n: Node, from: Addr, ttl: int, m: Rreq, env: Env)
    requires Relays(n, from, m) && m.dest == n.ip && env.now < BackUntil(n.table, from, m, env.now)
    ensures var n' := Receive(n, from, ttl, RreqMsg(m), env);
            var seqNum := if m.destSeq > n.localSeq then m.destSeq else n.localSeq;
            && Out(Some(from), -1, RrepMsg(Rrep(0, m.dest, seqNum, m.src, 30000))) in n'.outbox
            && m.src in n'.table && n'.table[m.src].next == from
            && n'.table[m.src].hop == if from == m.src then 1 else m.hop + 1
  {
    hide Receive, LearntRreq, RepairRerr, SentToward, AnswerTo, GratuitousTo, Answers;
    LearntLookup(n, from, m, env.now);
    var t := LearntRreq(n, from, m, env.now);
    RreqSent(n, from, ttl, m, env);
    RreqTeaches(n, from, ttl, m, env, m.src);
    var seqNum := if m.destSeq > n.localSeq then m.destSeq else n.localSeq;
    var out := Out(Some(from), -1, RrepMsg(Rrep(0, m.dest, seqNum, m.src, 30000)));
    assert RreqReaction(n, ttl, m, t, env) == [out];
  }

  ghost predicate Learns(n: Node, from: Addr, m: Rrep) {
    && !n.reboot && n.outbox == [] && from != n.ip && from != m.src && m.src != m.dest && m.hop < 255
    && (from == m.dest || Fresh(n.table, m.dest, m.destSeq, m.hop + 1))
  }

  function ForthUntil(from: Addr, m: Rrep, now: int): int {
    now + if from == m.dest then 4000 else m.life
  }

  /** A node hears the answer: it has the route, and relays it if the answer is for another node. */
  lemma AnswerHeard(n: Node, from: Addr, ttl: int, m: Rrep, env: Env)
    requires Learns(n, from, m)
    ensures var n' := Receive(n, from, ttl, RrepMsg(m), env);
            && LeadsTo(n'.table, m.dest, from, if from == m.dest then 1 else m.hop + 1, m.destSeq,
                       ForthUntil(from, m, env.now))
            && (m.dest, true) in Answers(n'.trace) && SameRoute(n.table, n'.table, m.src)
            && (m.src != n.ip && m.src != 0 && FindActive(n.table, m.src, env.now) && n.table[m.src].next != 0 ==>
                  Out(Some(n.table[m.src].next), -1, RrepMsg(m.(hop := m.hop + 1))) in n'.outbox)
  {
    hide Receive, LearntRrep, RepairRerr, Answers;
    RrepSent(n, from, ttl, m, env);
    RrepTeaches(n, from, ttl, m, env, m.dest);
    RrepTeaches(n, from, ttl, m, env, m.src);
    LearntRrepIs(n, from, m, env.now, m.src);
  }

  // ---- the chain ----

  /** The nodes vs of a network, from originator to destination; the flood starts as m, with this ttl. */
  datatype Path = Path(vs: seq<Addr>, m: Rreq, ttl: int, start: Net, envs: seq<Env>)

  /** The two nodes at the ends are Hops(c) hops apart; every hop takes one delivery either way. */
  function Hops(c: Path): int {
    |c.vs| - 1
  }

  ghost predicate Shaped(c: Path) {
    2 <= |c.vs| <= 256 && |c.envs| == 2 * Hops(c) && forall v :: v in c.vs ==> v in c.start.nodes
  }

  /** Node i of the chain, as it is at the start. */
  ghost function At(c: Path, i: nat): Node
    requires Shaped(c) && i < |c.vs|
  {
    c.start.nodes[c.vs[i]]
  }

  /** The destination number after i relays: the highest that the flood has met. */
  ghost function Highest(c: Path, i: nat): u32
    requires Shaped(c) && i < |c.vs|
  {
    if i == 0 then c.m.destSeq
    else if SeqOf(At(c, i).table, c.m.dest) > Highest(c, i - 1) then SeqOf(At(c, i).table, c.m.dest)
    else Highest(c, i - 1)
  }

  /** The flood as node i sends it on. */
  ghost function Copy(c: Path, i: nat): Rreq
    requires Shaped(c) && i < |c.vs|
  {
    c.m.(hop := i, destSeq := Highest(c, i))
  }

  /** The answer as node i hears it. */
  ghost function AnswerAt(c: Path, i: nat): Rrep
    requires Shaped(c) && i < Hops(c)
  {
    var heard, own := Highest(c, Hops(c) - 1), At(c, Hops(c)).localSeq;
    Rrep(Hops(c) - 1 - i, c.m.dest, if heard > own then heard else own, c.m.src, 30000)
  }

  /** First the flood goes up the chain, hop by hop, then the answer comes back. */
  ghost function Leg(c: Path, k: nat): Delivery
    requires Shaped(c) && k < 2 * Hops(c)
  {
    if k < Hops(c) then
      Delivery(Packet(c.vs[k], None, c.ttl - k, RreqMsg(Copy(c, k))), c.vs[k + 1], c.envs[k])
    else
      var i := 2 * Hops(c) - 1 - k;
      Delivery(Packet(c.vs[i + 1], Some(c.vs[i]), -1, RrepMsg(AnswerAt(c, i))), c.vs[i], c.envs[k])
  }

  /** The network after the first k deliveries. */
  ghost function NetAt(c: Path, k: nat): (net: Net)
    requires Shaped(c) && k <= 2 * Hops(c)
    ensures net.nodes.Keys == c.start.nodes.Keys
  {
    if k == 0 then c.start else Deliver(NetAt(c, k - 1), Leg(c, k - 1).p, Leg(c, k - 1).x, c.envs[k - 1])
  }

  /** What node i is like at the start. */
  ghost predicate NodeReady(c: Path, i: nat)
    requires Shaped(c) && i < |c.vs|
  {
    var n := At(c, i);
    && n.ip == c.vs[i] != 0 && !n.reboot
    && (1 <= i ==> !Ignored(n, c.m))
    && (2 <= i ==> Fresh(n.table, c.m.src, c.m.srcSeq, i))
    && (1 <= i < Hops(c) ==> !FindValid(n.table, c.m.dest, Highest(c, i - 1)))
    && (i + 1 < Hops(c) ==> Fresh(n.table, c.m.dest, AnswerAt(c, i).destSeq, Hops(c) - i))
  }

  /** The answer is at node i while its route back to the originator has not expired. */
  ghost predicate InTime(c: Path, i: nat)
    requires Shaped(c) && 1 <= i < |c.vs|
  {
    c.envs[if i == Hops(c) then i - 1 else 2 * Hops(c) - 1 - i].now
    < BackUntil(At(c, i).table, c.vs[i - 1], Copy(c, i - 1), c.envs[i - 1].now)
  }

  /**
   Running nodes with different addresses, no further apart than the ttl allows; none has handled the
   flood, none on the way has a route to the destination that is new enough to answer, and what they
   know of the originator and of the destination is older or worse than what they will hear.
   */
  ghost predicate Ready(c: Path) {
    && Shaped(c) && Hops(c) <= c.ttl
    && (forall i, j :: 0 <= i < j < |c.vs| ==> c.vs[i] != c.vs[j])
    && c.m.src == c.vs[0] && c.m.dest == c.vs[Hops(c)] && c.m.hop == 0
    && Packet(c.vs[0], None, c.ttl, RreqMsg(c.m)) in c.start.msgs
    && (forall i {:trigger At(c, i)} :: 0 <= i < |c.vs| ==> NodeReady(c, i))
    && (forall i {:trigger At(c, i)} :: 1 <= i < |c.vs| ==> InTime(c, i))
  }

  /** Node i once the flood has passed it. */
  ghost function Mid(c: Path, i: nat): Node
    requires Shaped(c) && i < |c.vs|
  {
    if i == 0 then At(c, 0) else Received(c.start, Leg(c, i - 1).p, c.vs[i], c.envs[i - 1])
  }

  /** Node i once it has the answer. */
  ghost function End(c: Path, i: nat): Node
    requires Shaped(c) && i < Hops(c)
  {
    Receive(Mid(c, i).(outbox := []), c.vs[i + 1], -1, RrepMsg(AnswerAt(c, i)), c.envs[2 * Hops(c) - 1 - i])
  }

  ghost predicate Different(c: Path) {
    forall i, j :: 0 <= i < j < |c.vs| ==> c.vs[i] != c.vs[j]
  }

  /** The node that gets delivery k. */
  function Receiver(c: Path, k: nat): int {
    if k < Hops(c) then k + 1 else 2 * Hops(c) - 1 - k
  }

  lemma DeliveredTo(c: Path, k: nat, i: nat)
    requires Shaped(c) && Different(c) && 1 <= k <= 2 * Hops(c) && i < |c.vs|
    ensures var net, leg := NetAt(c, k - 1), Leg(c, k - 1);
            && leg.x == c.vs[Receiver(c, k - 1)]
            && NetAt(c, k).nodes[c.vs[i]]
               == if i == Receiver(c, k - 1) then Received(net, leg.p, leg.x, c.envs[k - 1]) else net.nodes[c.vs[i]]
  {
    hide Received, Highest, AnswerAt, Copy;
  }

  lemma SameReceived(net: Net, net': Net, p: Packet, x: Addr, env: Env)
    requires x in net.nodes && x in net'.nodes && net.nodes[x] == net'.nodes[x]
    ensures Received(net, p, x, env) == Received(net', p, x, env)
  {
    hide Receive;
  }

  lemma EndIs(c: Path, net: Net, i: nat)
    requires Shaped(c) && i < Hops(c) && net.nodes.Keys == c.start.nodes.Keys && net.nodes[c.vs[i]] == Mid(c, i)
    ensures var k := 2 * Hops(c) - 1 - i; Received(net, Leg(c, k).p, c.vs[i], c.envs[k]) == End(c, i)
  {
    hide Receive, Mid, Highest, AnswerAt;
  }

  /** Every node changes when it hears the flood and when it hears the answer, and at no other time. */
  lemma {:induction false} NodeAt(c: Path, k: nat, i: nat)
    requires Shaped(c) && Different(c) && k <= 2 * Hops(c) && i < |c.vs|
    ensures NetAt(c, k).nodes[c.vs[i]]
         == if k <= Hops(c) then if 1 <= i <= k then Mid(c, i) else At(c, i)
            else if i < Hops(c) && 2 * Hops(c) - k <= i then End(c, i) else Mid(c, i)
  {
    hide Received, NetAt, End, Leg, Different;
    if k > 0 {
      NodeAt(c, k - 1, i);
      DeliveredTo(c, k, i);
      if i == Receiver(c, k - 1) {
        if k <= Hops(c) {
          SameReceived(NetAt(c, k - 1), c.start, Leg(c, k - 1).p, c.vs[i], c.envs[k - 1]);
        } else {
          EndIs(c, NetAt(c, k - 1), i);
        }
      }
    } else {
      assert NetAt(c, 0) == c.start by { NoneYet(c); }
    }
  }

  lemma NoneYet(c: Path)
    requires Shaped(c)
    ensures NetAt(c, 0) == c.start
  {
  }

  // ---- up the chain ----

  lemma ReadyShape(c: Path)
    requires Ready(c)
    ensures Shaped(c) && Different(c) && Hops(c) <= c.ttl
  {
  }

  lemma HearsCopy(c: Path, i: nat)
    requires Ready(c) && 1 <= i < |c.vs|
    ensures var n, from, m := At(c, i).(outbox := []), c.vs[i - 1], Copy(c, i - 1);
            && Relays(n, from, m) && n.ip == c.vs[i] && m.src == c.m.src && m.dest == c.m.dest && m.srcSeq == c.m.srcSeq
            && m.hop == i - 1 && (from == m.src <==> i == 1)
            && Mid(c, i) == Receive(n, from, c.ttl - (i - 1), RreqMsg(m), c.envs[i - 1])
            && (i < Hops(c) ==> n.ip != m.dest && !FindValid(n.table, m.dest, m.destSeq)
                                && Copy(c, i) == m.(hop := m.hop + 1, destSeq := RaisedDestSeq(n.table, m)))
  {
    hide Receive, AnswerAt, InTime, Fresh, Ignored, FindValid, Highest;
    MidIs(c, i);
    NextCopy(c, i);
    assert NodeReady(c, i) && NodeReady(c, i - 1);
    SameIgnored(At(c, i), c.m, Copy(c, i - 1));
  }

  lemma SameIgnored(n: Node, m: Rreq, m': Rreq)
    requires m'.src == m.src && m'.id == m.id
    ensures Ignored(n.(outbox := []), m') <==> Ignored(n, m)
  {
  }

  lemma MidIs(c: Path, i: nat)
    requires Shaped(c) && 1 <= i < |c.vs|
    ensures Mid(c, i) == Receive(At(c, i).(outbox := []), c.vs[i - 1], c.ttl - (i - 1), RreqMsg(Copy(c, i - 1)),
                                 c.envs[i - 1])
  {
    hide Receive, Copy, AnswerAt;
  }

  lemma NextCopy(c: Path, i: nat)
    requires Shaped(c) && 1 <= i < |c.vs|
    ensures var m := Copy(c, i - 1);
            Copy(c, i) == m.(hop := m.hop + 1, destSeq := RaisedDestSeq(At(c, i).table, m))
  {
  }

  lemma MidRelays(c: Path, i: nat)
    requires Ready(c) && 1 <= i < Hops(c)
    ensures var n := Mid(c, i);
            && n.ip == c.vs[i] && !n.reboot && SameRoute(At(c, i).table, n.table, c.m.dest)
            && Out(None, c.ttl - i, RreqMsg(Copy(c, i))) in n.outbox
            && LeadsTo(n.table, c.m.src, c.vs[i - 1], i, c.m.srcSeq,
                       BackUntil(At(c, i).table, c.vs[i - 1], Copy(c, i - 1), c.envs[i - 1].now))
  {
    hide Receive, Copy, Relays, Ready, Mid, RaisedDestSeq, LeadsTo, BackUntil, SameRoute, FindValid, ReverseEnd;
    ReadyShape(c);
    HearsCopy(c, i);
    FloodRelayed(At(c, i).(outbox := []), c.vs[i - 1], c.ttl - (i - 1), Copy(c, i - 1), c.envs[i - 1]);
  }

  lemma EndAnswers(c: Path)
    requires Ready(c)
    ensures var l := Hops(c);
            var n := Mid(c, l);
            && Out(Some(c.vs[l - 1]), -1, RrepMsg(AnswerAt(c, l - 1))) in n.outbox
            && c.m.src in n.table && n.table[c.m.src].next == c.vs[l - 1] && n.table[c.m.src].hop == l
  {
    hide Receive, Copy, Relays, Ready, Mid, BackUntil;
    ReadyShape(c);
    var l := Hops(c);
    HearsCopy(c, l);
    LastInTime(c);
    FloodAnswered(At(c, l).(outbox := []), c.vs[l - 1], c.ttl - (l - 1), Copy(c, l - 1), c.envs[l - 1]);
  }

  lemma LastInTime(c: Path)
    requires Ready(c)
    ensures var l, i := Hops(c), Hops(c) - 1;
            && c.m.dest == At(c, l).ip && Copy(c, i).destSeq == Highest(c, i)
            && c.envs[i].now < BackUntil(At(c, l).table, c.vs[i], Copy(c, i), c.envs[i].now)
  {
    hide BackUntil;
    assert NodeReady(c, Hops(c)) && InTime(c, Hops(c));
  }

  // ---- and back ----

  lemma MidHearsAnswer(c: Path, i: nat)
    requires Ready(c) && i < Hops(c)
    ensures var n, from, m := Mid(c, i).(outbox := []), c.vs[i + 1], AnswerAt(c, i);
            && Learns(n, from, m) && n.ip == c.vs[i] != 0 && m.dest == c.m.dest && m.src == c.m.src != 0
            && m.hop == Hops(c) - 1 - i && (from == m.dest <==> i == Hops(c) - 1) && m.life == 30000
            && (1 <= i ==>
                  && m.src != n.ip && m.src in n.table && FindActive(n.table, m.src, c.envs[2 * Hops(c) - 1 - i].now)
                  && n.table[m.src].next == c.vs[i - 1] != 0 && n.table[m.src].hop == i
                  && AnswerAt(c, i - 1) == m.(hop := m.hop + 1))
  {
    hide Receive, BackUntil, Mid, Copy, Highest, LeadsTo, Fresh;
    assert NodeReady(c, i) && NodeReady(c, 0);
    if i == 0 {
      assert Mid(c, 0) == At(c, 0) by { FirstMid(c); }
    } else {
      assert NodeReady(c, i - 1) && InTime(c, i);
      MidRelays(c, i);
      UsedUntil(Mid(c, i).table, c.m.src, c.vs[i - 1], i, c.m.srcSeq,
                BackUntil(At(c, i).table, c.vs[i - 1], Copy(c, i - 1), c.envs[i - 1].now));
      SameFresh(At(c, i).table, Mid(c, i).table, c.m.dest, AnswerAt(c, i).destSeq, Hops(c) - i);
    }
  }

  lemma FirstMid(c: Path)
    requires Shaped(c)
    ensures Mid(c, 0) == At(c, 0)
  {
  }

  lemma UsedUntil(t: Table, d: Addr, next: Addr, hop: u8, seqNum: u32, end: int)
    requires LeadsTo(t, d, next, hop, seqNum, end)
    ensures d in t && t[d].next == next && t[d].hop == hop && forall now :: FindActive(t, d, now) <==> now < end
  {
  }

  lemma SameFresh(t: Table, t': Table, d: Addr, seqNum: u32, hop: int)
    requires SameRoute(t, t', d)
    ensures Fresh(t', d, seqNum, hop) <==> Fresh(t, d, seqNum, hop)
  {
  }

  /** Node i with the answer: the route forth, the news for the Local Agent, and the answer passed on. */
  lemma AnswerPasses(c: Path, i: nat)
    requires Ready(c) && i < Hops(c)
    ensures var n, m := End(c, i), AnswerAt(c, i);
            && LeadsTo(n.table, c.m.dest, c.vs[i + 1], Hops(c) - i, m.destSeq,
                       ForthUntil(c.vs[i + 1], m, c.envs[2 * Hops(c) - 1 - i].now))
            && (c.m.dest, true) in Answers(n.trace)
            && (1 <= i ==>
                  && c.m.src in n.table && n.table[c.m.src].next == c.vs[i - 1] && n.table[c.m.src].hop == i
                  && Out(Some(c.vs[i - 1]), -1, RrepMsg(AnswerAt(c, i - 1))) in n.outbox)
  {
    hide Receive, Ready, Learns, Mid, LeadsTo, ForthUntil, AnswerAt, Answers, FindActive;
    ReadyShape(c);
    MidHearsAnswer(c, i);
    AnswerHeard(Mid(c, i).(outbox := []), c.vs[i + 1], -1, AnswerAt(c, i), c.envs[2 * Hops(c) - 1 - i]);
  }

  lemma SentIsFound(net: Net, p: Packet, x: Addr, env: Env, out: Out)
    requires x in net.nodes && out in Received(net, p, x, env).outbox
    ensures Packet(x, out.to, out.ttl, out.msg) in Deliver(net, p, x, env).msgs
  {
    hide Received;
  }

  /** Every packet of the walk has been sent when it is delivered. */
  lemma {:induction false} LegIsSent(c: Path, k: nat)
    requires Ready(c) && k < 2 * Hops(c)
    ensures Leg(c, k).p in NetAt(c, k).msgs
  {
    hide Received, Ready, Highest, AnswerAt, Mid, End, NetAt, Copy;
    ReadyShape(c);
    if k == 0 {
      FirstLeg(c);
    } else {
      var net, leg, i := NetAt(c, k - 1), Leg(c, k - 1), Receiver(c, k - 1);
      NodeAt(c, k, i);
      DeliveredTo(c, k, i);
      assert NetAt(c, k) == Deliver(net, leg.p, leg.x, c.envs[k - 1]) by { NextNet(c, k); }
      if k < Hops(c) {
        MidRelays(c, i);
        SentIsFound(net, leg.p, leg.x, c.envs[k - 1], Out(None, c.ttl - i, RreqMsg(Copy(c, i))));
      } else if k == Hops(c) {
        EndAnswers(c);
        SentIsFound(net, leg.p, leg.x, c.envs[k - 1], Out(Some(c.vs[i - 1]), -1, RrepMsg(AnswerAt(c, i - 1))));
      } else {
        AnswerPasses(c, i);
        SentIsFound(net, leg.p, leg.x, c.envs[k - 1], Out(Some(c.vs[i - 1]), -1, RrepMsg(AnswerAt(c, i - 1))));
      }
    }
  }

  lemma FirstLeg(c: Path)
    requires Ready(c)
    ensures Leg(c, 0).p in NetAt(c, 0).msgs
  {
    assert Copy(c, 0) == c.m;
  }

  lemma NextNet(c: Path, k: nat)
    requires Shaped(c) && 1 <= k <= 2 * Hops(c)
    ensures NetAt(c, k) == Deliver(NetAt(c, k - 1), Leg(c, k - 1).p, Leg(c, k - 1).x, c.envs[k - 1])
  {
    hide Deliver, Leg;
  }

  /** The route of node v to the originator, which may be in use or not. */
  predicate LeadsBack(net: Net, v: Addr, o: Addr, next: Addr, hop: int) {
    && v in net.nodes && o in net.nodes[v].table
    && net.nodes[v].table[o].next == next && net.nodes[v].table[o].hop == hop
  }

  /**
   The chain law: every copy of the flood and of the answer is sent by the node before it, and when the
   answer has come back every node of the chain leads to the destination and back to the originator,
   over its neighbours in the chain and with the right hop counts. The originator tells its Local Agent.
   */
  lemma {:induction false} ChainLaw(c: Path)
    requires Ready(c)
    ensures forall k :: 0 <= k < 2 * Hops(c) ==> Leg(c, k).p in NetAt(c, k).msgs
    ensures var net := NetAt(c, 2 * Hops(c));
            && (forall i :: 0 <= i < Hops(c) ==>
                  && LeadsTo(net.nodes[c.vs[i]].table, c.m.dest, c.vs[i + 1], Hops(c) - i, AnswerAt(c, 0).destSeq,
                             c.envs[2 * Hops(c) - 1 - i].now + if i + 1 == Hops(c) then 4000 else 30000)
                  && (c.m.dest, true) in Answers(net.nodes[c.vs[i]].trace))
            && forall i :: 1 <= i <= Hops(c) ==> LeadsBack(net, c.vs[i], c.m.src, c.vs[i - 1], i)
  {
    hide Ready, Leg, LeadsTo, Answers, NetAt, Mid, End;
    ReadyShape(c);
    forall k | 0 <= k < 2 * Hops(c) ensures Leg(c, k).p in NetAt(c, k).msgs {
      LegIsSent(c, k);
    }
    var net := NetAt(c, 2 * Hops(c));
    forall i | 0 <= i < Hops(c)
      ensures LeadsTo(net.nodes[c.vs[i]].table, c.m.dest, c.vs[i + 1], Hops(c) - i, AnswerAt(c, 0).destSeq,
                      c.envs[2 * Hops(c) - 1 - i].now + if i + 1 == Hops(c) then 4000 else 30000)
      ensures (c.m.dest, true) in Answers(net.nodes[c.vs[i]].trace)
    {
      NodeAt(c, 2 * Hops(c), i);
      AnswerPasses(c, i);
      MidHearsAnswer(c, i);
    }
    forall i | 1 <= i <= Hops(c)
      ensures LeadsBack(net, c.vs[i], c.m.src, c.vs[i - 1], i)
    {
      NodeAt(c, 2 * Hops(c), i);
      if i < Hops(c) {
        AnswerPasses(c, i);
      } else {
        EndAnswers(c);
      }
    }
  }

  // ---- a chain that knows nothing ----

  /** Nobody knows the end points or the flood, and all deliveries take less than four seconds. */
  ghost predicate Quiet(c: Path, begin: int) {
    && Shaped(c) && Hops(c) <= c.ttl && Hops(c) <= 48 && Different(c)
    && c.m.src == c.vs[0] && c.m.dest == c.vs[Hops(c)] && c.m.hop == 0
    && Packet(c.vs[0], None, c.ttl, RreqMsg(c.m)) in c.start.msgs
    && (forall i {:trigger At(c, i)} :: 0 <= i < |c.vs| ==>
          var n := At(c, i);
          && n.ip == c.vs[i] != 0 && !n.reboot && (c.m.src, c.m.id) !in n.fw
          && c.m.src !in n.table && c.m.dest !in n.table)
    && (forall k :: 0 <= k < |c.envs| ==> begin <= c.envs[k].now < begin + 4000)
  }

  lemma {:induction false} QuietChainIsReady(c: Path, begin: int)
    requires Quiet(c, begin)
    ensures Ready(c)
  {
    hide Highest, AnswerAt;
    forall i | 0 <= i < |c.vs| ensures NodeReady(c, i) && (1 <= i ==> InTime(c, i)) {
      QuietNode(c, begin, i);
    }
    hide NodeReady, InTime, Copy;
  }

  lemma QuietNode(c: Path, begin: int, i: nat)
    requires Quiet(c, begin) && i < |c.vs|
    ensures NodeReady(c, i) && (1 <= i ==> InTime(c, i))
  {
    hide Highest, AnswerAt;
    assert c.m.src !in At(c, i).table && c.m.dest !in At(c, i).table && At(c, i).ip == c.vs[i];
  }
}
