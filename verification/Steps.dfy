/**
 What each routine of the AODV daemon does to the daemon's state. The methods of class Aodv are
 proved to compute exactly these functions, and the theorems of the other modules are about them.
 */
module Steps {
  import opened Base
  import opened Params
  import opened Timers
  import opened Node

  // ---- sending ----

  function Send(n: Node, to: Option<Addr>, ttl: int, msg: Msg): Node {
    if ttl == 0 then n
    else n.(outbox := n.outbox + [Out(to, ttl, msg)], needHello := n.needHello && to.Some?)
  }

  function ReplyTo(n: Node, dst: Addr, found: bool): Node {
    n.(trace := n.trace + [Reply(dst, found, dst in n.fib)])
  }

  function PrecCount(t: Table, dst: Addr): nat {
    if dst in t then |t[dst].prec| else 0
  }

  function SeqOf(t: Table, dst: Addr): u32 {
    if dst in t then t[dst].seqNum else 0
  }

  function GenerateRERR(n: Node, dst: Addr, nFlag: bool, brd: bool): Node {
    var cnt := PrecCount(n.table, dst);
    if cnt > 0 || brd then
      Send(n, if cnt == 1 then Some(n.table[dst].prec[0]) else None, 1,
           RerrMsg(Rerr(nFlag, 1, [Unreach(dst, SeqOf(n.table, dst))])))
    else n
  }

  // ---- the routing table ----

  function FindActive(t: Table, d: Addr, now: int): bool {
    d in t && now < t[d].life && t[d].flag.Active?
  }

  function FindValid(t: Table, d: Addr, seqNum: u32): bool {
    d in t && t[d].seqNum >= seqNum && t[d].flag.Active?
  }

  function GetTTL(t: Table, d: Addr, now: int): int {
    if d !in t then 0
    else if t[d].hop != INFINITY && t[d].life > now then t[d].hop
    else t[d].lastHop
  }

  function AddPrec(e: Entry, p: Addr): Entry {
    if p in e.prec then e else e.(prec := e.prec + [p])
  }

  function AddPrecTo(t: Table, d: Addr, p: Addr): Table
    requires d in t
  {
    t[d := AddPrec(t[d], p)]
  }

  function NeighborTable(t: Table, nb: Addr, seqNum: u32, life: int): Table {
    t[nb := if nb in t then t[nb].(next := nb, life := life, hop := 1, seqNum := seqNum, flag := Active)
            else Entry(seqNum, 1, 0, nb, [], life, Active)]
  }

  predicate Better(e: Entry, seqNum: u32, hop: int) {
    seqNum > e.seqNum || (seqNum == e.seqNum && hop < e.hop)
  }

  /** Does an update for dst take effect? hop is the received hop count plus one. */
  predicate Accepts(t: Table, dst: Addr, seqNum: u32, hop: int) {
    IsActive(t, dst) ==> Better(t[dst], seqNum, hop)
  }

  /** keepLonger: the reverse route of an active entry never shortens its lifetime. */
  function RouteTable(t: Table, dst: Addr, seqNum: u32, hop: int, nhop: Addr, life: int, keepLonger: bool): Table {
    if !Accepts(t, dst, seqNum, hop) then t
    else if dst !in t then t[dst := Entry(seqNum, U8(hop), 0, nhop, [], life, Active)]
    else
      var life' := if keepLonger && t[dst].flag.Active? then Max(life, t[dst].life) else life;
      t[dst := t[dst].(seqNum := seqNum, hop := U8(hop), next := nhop, life := life', flag := Active)]
  }

  /** The kernel route is rewritten unless only the sequence number moved. */
  predicate Rewrites(t: Table, dst: Addr, seqNum: u32, hop: int, nhop: Addr) {
    Accepts(t, dst, seqNum, hop) && (IsActive(t, dst) ==> hop < t[dst].hop || t[dst].next != nhop)
  }

  function GetNextHop(n: Node, d: Addr, now: int): (Node, Addr) {
    if FindActive(n.table, d, now) then
      var e := n.table[d];
      (n.(table := n.table[d := e.(life := Max(e.life, now + ACTIVE_ROUTE_TIMEOUT))]), e.next)
    else (n, 0)
  }

  // ---- updates on received messages ----

  function HasDiscovery(tq: Queue<Job>, d: Addr): Option<Job> {
    var i := First(tq.list, DiscoveryJob(d));
    if i < |tq.list| then Some(tq.list[i].what) else None
  }

  /** removeRREQTimer, and the end of local repair when the removed timer was an LR_TIMER. */
  function EndDiscovery(n: Node, d: Addr, now: int): Node {
    var job := HasDiscovery(n.tq, d);
    n.(tq := RemoveArmed(n.tq, now, DiscoveryJob(d)),
       repair := if job.Some? && job.value.kind.LrTimer? then n.repair - {d} else n.repair)
  }

  function RefreshActiveTimer(n: Node, nb: Addr, src: Addr, now: int): Node {
    var queued := First(n.tq.list, ActiveRouteJob(nb)) < |n.tq.list|;
    var tq := if queued then RemoveQuiet(n.tq, ActiveRouteJob(nb)) else n.tq;
    n.(tq := if queued || src == 0 then SetTimer(tq, now, NEIGHBOR_LIFE, Job(ActiveRouteTimer, nb)) else tq)
  }

  function NeighborUpdate(n: Node, nb: Addr, src: Addr, seqNum: u32, life: int, now: int): Node {
    var n1 := n.(table := NeighborTable(n.table, nb, seqNum, life),
                 fib := if IsActive(n.table, nb) then n.fib else n.fib[nb := nb]);
    var n2 := EndDiscovery(ReplyTo(n1, nb, true), nb, now);
    RefreshActiveTimer(n2, nb, src, now)
  }

  /** reverseRouteUpdate and forwardRouteUpdate, which differ in the lifetime rule. */
  function RouteUpdate(
    n: Node, dst: Addr, seqNum: u32, hop: int, nhop: Addr, life: int, keepLonger: bool, now: int): Node
  {
    var n1 := n.(table := RouteTable(n.table, dst, seqNum, hop, nhop, life, keepLonger),
                 fib := if Rewrites(n.table, dst, seqNum, hop, nhop) then n.fib[dst := nhop] else n.fib);
    var n2 := ReplyTo(n1, dst, true);
    var n3 := EndDiscovery(n2, dst, now);
    var job := HasDiscovery(n2.tq, dst);
    if job.Some? && job.value.kind.LrTimer? && dst in n3.table && n3.table[dst].hop > n3.table[dst].lastHop
    then GenerateRERR(n3, dst, true, false)
    else n3
  }

  function ReverseLife(hop: int, now: int): int {
    now + PATH_TRAVERSAL_TIME - 2 * U8(hop) * NODE_TRAVERSAL_TIME
  }

  function ReverseRouteUpdate(n: Node, nhop: Addr, m: Rreq, now: int): Node {
    RouteUpdate(n, m.src, m.srcSeq, m.hop + 1, nhop, ReverseNew(n.table, m, now), true, now)
  }

  /** A new reverse entry uses the hop count before it is narrowed to eight bits. */
  function ReverseNew(t: Table, m: Rreq, now: int): int {
    if m.src in t then ReverseLife(m.hop + 1, now)
    else now + PATH_TRAVERSAL_TIME - 2 * (m.hop + 1) * NODE_TRAVERSAL_TIME
  }

  function ForwardRouteUpdate(n: Node, nhop: Addr, m: Rrep, now: int): Node {
    RouteUpdate(n, m.dest, m.destSeq, m.hop + 1, nhop, now + m.life, false, now)
  }

  // ---- RREQ ----

  datatype Verdict = Ignore | GenRrep | FwdRreq

  function RaisedDestSeq(t: Table, m: Rreq): u32 {
    if m.dest in t && m.destSeq < t[m.dest].seqNum then t[m.dest].seqNum else m.destSeq
  }

  function RecvRREQ(n: Node, from: Addr, m: Rreq, now: int): (Node, Rreq, Verdict) {
    if m.src == n.ip then (n, m, Ignore)
    else
      var n1 := NeighborUpdate(n, from, m.src, if m.src == from then m.srcSeq else 0, now + NEIGHBOR_LIFE, now);
      if (m.src, m.id) in n1.fw then (n1, m, Ignore)
      else
        var n2 := n1.(fw := n1.fw[(m.src, m.id) := now + PATH_TRAVERSAL_TIME],
                      trace := n1.trace + [Handled(m.src, m.id, now)]);
        var n3 := if m.src != from then ReverseRouteUpdate(n2, from, m, now) else n2;
        if m.dest == n.ip then
          (n3.(localSeq := if m.destSeq > n3.localSeq then m.destSeq else n3.localSeq), m, GenRrep)
        else if FindValid(n3.table, m.dest, m.destSeq) then (n3, m, GenRrep)
        else (n3, m.(destSeq := RaisedDestSeq(n3.table, m), hop := U8(m.hop + 1)), FwdRreq)
  }

  function CreateRREP(n: Node, from: Addr, m: Rreq, env: Env): (Node, Rrep) {
    if m.dest == n.ip then (n, Rrep(0, m.dest, n.localSeq, m.src, MY_ROUTE_TIMEOUT))
    else if FindActive(n.table, m.dest, env.now) then
      var e := n.table[m.dest];
      var t1 := AddPrecTo(n.table, m.dest, from);
      var t2 := if FindActive(t1, m.src, env.now) then AddPrecTo(t1, m.src, e.next) else t1;
      (n.(table := t2), Rrep(e.hop, m.dest, e.seqNum, m.src, U32(e.life - env.now)))
    else (n, env.junkRrep.(dest := m.dest, src := m.src))
  }

  /** The gratuitous RREP tells the destination about the originator. */
  function CreateGRREP(n: Node, m: Rreq, env: Env): Rrep {
    if FindActive(n.table, m.src, env.now) then
      var e := n.table[m.src];
      Rrep(e.hop, m.src, m.srcSeq, m.dest, U32(e.life - env.now))
    else env.junkRrep.(dest := m.src, src := m.dest, destSeq := m.srcSeq)
  }

  function Unicast(n: Node, toward: Addr, m: Rrep, now: int): Node {
    var (n1, next) := GetNextHop(n, toward, now);
    if next != 0 then Send(n1, Some(next), -1, RrepMsg(m)) else n1
  }

  function AnswerRREQ(n: Node, from: Addr, m: Rreq, env: Env): Node {
    var (n1, rrep) := CreateRREP(n, from, m, env);
    var n2 := Unicast(n1, m.src, rrep, env.now);
    if m.g && m.dest != n.ip then Unicast(n2, m.dest, CreateGRREP(n2, m, env), env.now) else n2
  }

  function RebootRREQ(n: Node, from: Addr, m: Rreq, now: int): Node {
    var t1 := NeighborTable(n.table, from, if m.src == from then m.srcSeq else 0, now + NEIGHBOR_LIFE);
    var t2 := if m.src != from
              then RouteTable(t1, m.src, m.srcSeq, m.hop + 1, from, ReverseNew(t1, m, now), true) else t1;
    n.(table := t2, localSeq := if m.dest == n.ip && m.destSeq > n.localSeq then m.destSeq else n.localSeq)
  }

  function ProcessRREQ(n: Node, from: Addr, ttl: int, m: Rreq, env: Env): Node {
    if n.reboot then RebootRREQ(n, from, m, env.now)
    else
      var (n1, m1, v) := RecvRREQ(n, from, m, env.now);
      match v
      case Ignore => n1
      case FwdRreq => if ttl > 0 then Send(n1, None, ttl, RreqMsg(m1)) else n1
      case GenRrep => AnswerRREQ(n1, from, m, env)
  }

  // ---- RREP ----

  function RecvRREP(n: Node, from: Addr, m: Rrep, now: int): (Node, Rrep, bool) {
    var n1 := NeighborUpdate(n, from, m.src, if m.dest == from then m.destSeq else 0, now + NEIGHBOR_LIFE, now);
    var n2 := if m.dest != from then ForwardRouteUpdate(n1, from, m, now) else n1;
    if m.src != n.ip && m.src != 0 then
      var n3 := if FindActive(n2.table, m.dest, now) && FindActive(n2.table, m.src, now)
                then n2.(table := AddPrecTo(n2.table, m.dest, n2.table[m.src].next)) else n2;
      (n3, m.(hop := U8(m.hop + 1)), true)
    else (n2, m, false)
  }

  function RebootRREP(n: Node, from: Addr, m: Rrep, now: int): Node {
    var t1 := NeighborTable(n.table, from, if m.dest == from then m.destSeq else 0, now + NEIGHBOR_LIFE);
    n.(table := if m.dest != from then RouteTable(t1, m.dest, m.destSeq, m.hop + 1, from, now + m.life, false) else t1)
  }

  function ProcessRREP(n: Node, from: Addr, m: Rrep, env: Env): Node {
    if n.reboot then RebootRREP(n, from, m, env.now)
    else
      var (n1, m1, send) := RecvRREP(n, from, m, env.now);
      if send then Unicast(n1, m.src, m1, env.now) else n1
  }

  // ---- RERR ----

  function UpdateInvalid(t: Table, dests: seq<Unreach>): Table {
    if dests == [] then t
    else
      var u := dests[0];
      var t1 := if u.dest in t && t[u.dest].hop == INFINITY && u.seqNum > t[u.dest].seqNum
                then t[u.dest := t[u.dest].(seqNum := u.seqNum)] else t;
      UpdateInvalid(t1, dests[1..])
  }

  /** Does a RERR received from prevHop invalidate the entry for d? */
  predicate Hit(t: Table, d: Addr, prevHop: Addr) {
    d in t && t[d].hop != INFINITY && t[d].next == prevHop
  }

  function InvalidateOne(n: Node, u: Unreach, now: int): Node
    requires u.dest in n.table
  {
    var e := n.table[u.dest];
    n.(fib := if e.flag.Active? then n.fib - {u.dest} else n.fib,
       repair := if e.flag.Broken? then n.repair - {u.dest} else n.repair,
       table := n.table[u.dest := e.(lastHop := e.hop, hop := INFINITY, seqNum := u.seqNum,
                                     life := now + DELETE_PERIOD, flag := Invalid)])
  }

  function UpdateValid(n: Node, dests: seq<Unreach>, prevHop: Addr, now: int): Node
    decreases dests
  {
    if dests == [] then n
    else UpdateValid(if Hit(n.table, dests[0].dest, prevHop) then InvalidateOne(n, dests[0], now) else n,
                     dests[1..], prevHop, now)
  }

  /** The destinations of the new RERR, in the order they are invalidated. */
  function NewDests(n: Node, dests: seq<Unreach>, prevHop: Addr, now: int): seq<Unreach>
    decreases dests
  {
    if dests == [] then []
    else if Hit(n.table, dests[0].dest, prevHop) then
      [dests[0]] + NewDests(InvalidateOne(n, dests[0], now), dests[1..], prevHop, now)
    else NewDests(n, dests[1..], prevHop, now)
  }

  predicate HasPrec(t: Table, dests: seq<Unreach>) {
    exists i :: 0 <= i < |dests| && PrecCount(t, dests[i].dest) > 0
  }

  /**
   createNewRERR writes through its null address pointer: at the first lost destination with precursors,
   if that one has exactly one.
   */
  predicate WritesNull(t: Table, dests: seq<Unreach>) {
    exists i :: 0 <= i < |dests| && PrecCount(t, dests[i].dest) == 1
                && forall j :: 0 <= j < i ==> PrecCount(t, dests[j].dest) == 0
  }

  function ForwardRERR(n: Node, from: Addr, m: Rerr, now: int): Node {
    var lost := NewDests(n, m.dests, from, now);
    var n1 := UpdateValid(n, m.dests, from, now);
    if HasPrec(n.table, lost) then Send(n1, None, 1, RerrMsg(Rerr(m.nFlag, U8(|lost|), lost))) else n1
  }

  function LocalRepairRERR(n: Node, from: Addr, m: Rerr, now: int): Node {
    if m.destCnt == 1 && |m.dests| > 0 && FindActive(n.table, m.dests[0].dest, now)
       && n.table[m.dests[0].dest].next == from
    then
      var d := m.dests[0].dest;
      var n1 := n.(table := n.table[d := n.table[d].(seqNum := m.dests[0].seqNum)]);
      if PrecCount(n1.table, d) > 0 then GenerateRERR(n1, d, true, false) else n1
    else n
  }

  function ProcessRERR(n: Node, from: Addr, m: Rerr, env: Env): Node {
    if n.reboot then
      var n1 := n.(table := NeighborTable(n.table, from, 0, env.now + NEIGHBOR_LIFE));
      UpdateValid(n1.(table := UpdateInvalid(n1.table, m.dests)), m.dests, from, env.now)
    else
      var n1 := NeighborUpdate(n, from, from, 0, env.now + NEIGHBOR_LIFE, env.now);
      var n2 := n1.(table := UpdateInvalid(n1.table, m.dests));
      if m.nFlag then LocalRepairRERR(n2, from, m, env.now) else ForwardRERR(n2, from, m, env.now)
  }

  /** processRecvMsg: the daemon ignores what it sent itself, and lowers the received ttl by one. */
  function Receive(n: Node, from: Addr, ttl: int, msg: Msg, env: Env): Node {
    if from == n.ip then n
    else match msg
      case RreqMsg(m) => ProcessRREQ(n, from, ttl - 1, m, env)
      case RrepMsg(m) => ProcessRREP(n, from, m, env)
      case RerrMsg(m) => ProcessRERR(n, from, m, env)
  }

  // ---- route discovery ----

  function CreateRREQ(n: Node, d: Addr, g: bool): (Node, Rreq) {
    var id := U32(n.rreqId + 1);
    var s := U32(n.localSeq + 1);
    (n.(rreqId := id, localSeq := s), Rreq(g, 0, id, d, SeqOf(n.table, d), n.ip, s))
  }

  function FirstTtl(t: Table, d: Addr, now: int): Ttl {
    if GetTTL(t, d, now) == 0 then TTL_START else GetTTL(t, d, now) + TTL_INCREMENT
  }

  function SetRREQTimer(n: Node, d: Addr, ttl: Ttl, now: int): Node {
    n.(tq := SetTimer(n.tq, now, 2 * ttl * NODE_TRAVERSAL_TIME, Job(RreqTimer, d)))
  }

  /** sendRREQ with expanding-ring search. */
  function SendRREQ(n: Node, d: Addr, g: bool, now: int): Node {
    if d == n.ip then n
    else
      var (n1, m) := CreateRREQ(n, d, g);
      var t := if d in n1.table then n1.table[d := n1.table[d].(life := now + PATH_TRAVERSAL_TIME)] else n1.table;
      var ttl := FirstTtl(t, d, now);
      var n2 := n1.(table := t, pending := n1.pending + [Pending(m, 0, ttl)], trace := n1.trace + [Originated(d)]);
      Send(SetRREQTimer(n2, d, ttl, now), None, ttl, RreqMsg(m))
  }

  function FirstPending(l: seq<Pending>, d: Addr): (i: nat)
    ensures i <= |l|
    ensures forall j :: 0 <= j < i ==> l[j].rreq.dest != d
    ensures i < |l| ==> l[i].rreq.dest == d
  {
    if l == [] || l[0].rreq.dest == d then 0 else 1 + FirstPending(l[1..], d)
  }

  /** The next ring: wider until the threshold, then the whole network a few more times. */
  function NextRing(p: Pending): Pending {
    if p.ttl == NET_DIAMETER then p.(retries := p.retries + 1)
    else if p.ttl + TTL_INCREMENT >= TTL_THRESHOLD then p.(ttl := NET_DIAMETER, retries := p.retries + 1)
    else p.(ttl := p.ttl + TTL_INCREMENT)
  }

  function ResendRREQ(n: Node, d: Addr, now: int): Node {
    var i := FirstPending(n.pending, d);
    if i == |n.pending| then n
    else
      var p := NextRing(n.pending[i]);
      if p.retries > RREQ_RETRIES then
        ReplyTo(n.(pending := n.pending[..i] + n.pending[i + 1..]), d, false)
      else
        var id := U32(n.rreqId + 1);
        var s := U32(n.localSeq + 1);
        var m := p.rreq.(id := id, destSeq := SeqOf(n.table, d), srcSeq := s);
        var n1 := n.(rreqId := id, localSeq := s, pending := n.pending[i := p.(rreq := m)],
                     trace := n.trace + [Resent(d)]);
        Send(SetRREQTimer(n1, d, p.ttl, now), None, p.ttl, RreqMsg(m))
  }

  function DoLocalRepair(n: Node, d: Addr, g: bool, now: int): Node {
    var (n1, m) := CreateRREQ(n, d, g);
    var ttl := (if d in n.table then n.table[d].lastHop else 0) + LOCAL_ADD_TTL;
    var n2 := n1.(tq := SetTimer(n1.tq, now, 2 * ttl * NODE_TRAVERSAL_TIME, Job(LrTimer, d)));
    Send(n2, None, ttl, RreqMsg(m))
  }

  function LRHandler(n: Node, d: Addr, now: int): Node {
    var n1 := ReplyTo(n, d, false);
    var n2 := if d in n1.table
              then n1.(table := n1.table[d := n1.table[d].(lastHop := n1.table[d].hop, hop := INFINITY,
                                                           life := now + DELETE_PERIOD, flag := Invalid)])
              else n1;
    var n3 := GenerateRERR(n2, d, false, false);
    n3.(repair := n3.repair - {d})
  }

  // ---- requests of the Local Agent ----

  function FirstReboot(q: seq<Timer<Job>>): (i: nat)
    ensures i <= |q|
    ensures forall j :: 0 <= j < i ==> !q[j].what.kind.RebootTimer?
    ensures i < |q| ==> q[i].what.kind.RebootTimer?
  {
    if q == [] || q[0].what.kind.RebootTimer? then 0 else 1 + FirstReboot(q[1..])
  }

  /** resetRebootTimer: rewritten in place, and the alarm is given the absolute time as a delay. */
  function ResetRebootTimer(tq: Queue<Job>, now: int): Queue<Job> {
    var i := FirstReboot(tq.list);
    if i == |tq.list| then tq
    else
      var q := tq.list[i := tq.list[i].(timeout := now + DELETE_PERIOD)];
      Queue(q, if q[0].what.kind.RebootTimer? then Arm(now, now + DELETE_PERIOD) else tq.alarm)
  }

  /** process_asl; tcp tells the protocol of the waiting packet. */
  function AgentRequest(n: Node, d: Addr, src: Addr, tcp: bool, env: Env): Node {
    var n0 := n.(trace := n.trace + [Request(d, src == n.ip)]);
    if n0.reboot then
      if src == n0.ip then ReplyTo(n0, d, false)
      else GenerateRERR(ReplyTo(n0.(tq := ResetRebootTimer(n0.tq, env.now)), d, false), d, false, true)
    else if FindActive(n0.table, d, env.now) then ReplyTo(n0, d, true)
    else if src == n0.ip then SendRREQ(n0, d, tcp || env.junkG, env.now)
    else if d in n0.repair then
      if d in n0.table && n0.table[d].flag.Broken? then DoLocalRepair(n0, d, tcp, env.now) else n0
    else
      GenerateRERR(ReplyTo(n0, d, false), d, false, d !in n0.table)
  }

  // ---- timer handlers ----

  function BreakVia(t: Table, nb: Addr, via: Addr, now: int): Table {
    map k | k in t ::
      if k != nb && t[k].next == via && t[k].flag.Active?
      then t[k].(flag := Broken, life := now + ACTIVE_ROUTE_TIMEOUT, lastHop := t[k].hop,
                     seqNum := U32(t[k].seqNum + 1))
      else t[k]
  }

  function BrokenVia(t: Table, nb: Addr, via: Addr): set<Addr> {
    set k | k in t && k != nb && t[k].next == via && t[k].flag.Active?
  }

  /** The entry of the silent neighbour itself. */
  function BreakNeighbor(e: Entry, now: int): Entry {
    var e1 := e.(flag := Broken, life := now + 10 * ACTIVE_ROUTE_TIMEOUT);
    if e.hop == INFINITY then e1.(hop := e.lastHop) else e1.(lastHop := e.hop, seqNum := U32(e.seqNum + 1))
  }

  /** When nb has no entry the source compares next hops with whatever lies behind end(): env.wild. */
  function NeighborTimeout(n: Node, nb: Addr, env: Env): Node {
    var t1 := if nb in n.table then n.table[nb := BreakNeighbor(n.table[nb], env.now)] else n.table;
    var f1 := if nb in n.table && n.table[nb].hop != INFINITY then n.fib - {nb} else n.fib;
    var via := if nb in n.table then nb else env.wild;
    n.(table := BreakVia(t1, nb, via, env.now), fib := f1 - BrokenVia(t1, nb, via),
       repair := n.repair + {nb} + BrokenVia(t1, nb, via))
  }

  /** The shortest idle time among ks of routes through k, or idle. */
  function LeastIdle(t: Table, k: Addr, ks: seq<Addr>, idle: int, env: Env): int {
    if ks == [] then idle
    else
      var j := ks[0];
      var i := if j != k && j in t && t[j].next == k then env.idle(j, false) else -1;
      LeastIdle(t, k, ks[1..], if i != -1 && i < idle then i else idle, env)
  }

  function IdleTime(t: Table, k: Addr, env: Env): int
    requires k in t
  {
    var own := if env.idle(k, true) < 0 then 2 * ACTIVE_ROUTE_TIMEOUT else env.idle(k, true);
    if t[k].hop == 1 then LeastIdle(t, k, Keys(t.Keys), own, env) else own
  }

  function Invalidate(e: Entry, now: int): Entry {
    var e1 := e.(hop := INFINITY, life := now + DELETE_PERIOD, flag := Invalid);
    if e.flag.Active? then e1.(seqNum := U32(e.seqNum + 1), lastHop := e.hop) else e1
  }

  function SetLife(t: Table, k: Addr, life: int): Table {
    if k in t then t[k := t[k].(life := life)] else t
  }

  predicate Through(t: Table, j: Addr, k: Addr) {
    j in t && j != k && t[j].next == k && t[j].hop != INFINITY
  }

  /** The entries that go down with k: those routed through it if it was a neighbour. */
  function Dead(t: Table, k: Addr): set<Addr>
    requires k in t
  {
    set j | j in t && (j == k || (t[k].hop == 1 && Through(t, j, k)))
  }

  function Kill(n: Node, dead: set<Addr>, now: int): Node {
    n.(table := map j | j in n.table :: if j in dead then Invalidate(n.table[j], now) else n.table[j],
       fib := n.fib - (set j | j in dead && IsActive(n.table, j)))
  }

  /** A used route lives on, and so does its next hop. */
  function Prolong(t: Table, k: Addr, life: int): Table
    requires k in t
  {
    SetLife(SetLife(t, k, life), t[k].next, life)
  }

  /** What refreshEntries does when it visits the entry for k. */
  function RefreshOne(n: Node, k: Addr, env: Env): Node {
    var t := n.table;
    if k !in t || t[k].life > env.now then n
    else if t[k].hop == INFINITY then n.(table := t - {k})
    else if IdleTime(t, k, env) < ACTIVE_ROUTE_TIMEOUT then
      n.(table := Prolong(t, k, env.now - IdleTime(t, k, env) + ACTIVE_ROUTE_TIMEOUT))
    else Kill(n, Dead(t, k), env.now)
  }

  function RefreshAll(n: Node, ks: seq<Addr>, env: Env): Node
    decreases ks
  {
    if ks == [] then n else RefreshAll(RefreshOne(n, ks[0], env), ks[1..], env)
  }

  function RefreshEntries(n: Node, env: Env): Node {
    RefreshAll(n, Keys(n.table.Keys), env)
  }

  function LiveFw(fw: map<(Addr, u32), int>, now: int): map<(Addr, u32), int> {
    map k | k in fw && now < fw[k] :: fw[k]
  }

  function SendHello(n: Node, now: int): Node {
    var n1 := if n.needHello
              then Send(n, None, 1, RrepMsg(Rrep(0, n.ip, n.localSeq, 0, NEIGHBOR_LIFE))) else n;
    n1.(tq := AddTimer(n1.tq, now, HELLO_INTERVAL, Job(HelloTimer, 0)), needHello := true)
  }

  /** The end of the reboot phase: addAllValidRoutes. */
  function RebootDone(n: Node): Node {
    n.(reboot := false,
       fib := n.fib + (map k | k in n.table && n.table[k].flag.Active? :: n.table[k].next))
  }

  function RebootHandler(n: Node, now: int): Node {
    if n.helloFlag then SendHello(RebootDone(n), now) else RebootDone(n)
  }

  function PeriodicHandler(n: Node, env: Env): Node {
    var n1 := n.(tq := AddTimer(n.tq, env.now, PERIODIC_INTERVAL, Job(PeriodicTimer, 0)));
    var n2 := RefreshEntries(n1, env);
    n2.(fw := LiveFw(n2.fw, env.now))
  }

  function Handle(n: Node, j: Job, env: Env): Node {
    match j.kind
    case RebootTimer => RebootHandler(n, env.now)
    case RreqTimer => ResendRREQ(n, j.data, env.now)
    case HelloTimer => SendHello(n, env.now)
    case LrTimer => LRHandler(n, j.data, env.now)
    case PeriodicTimer => PeriodicHandler(n, env)
    case RrepAckTimer => n
    case ActiveRouteTimer => NeighborTimeout(n, j.data, env)
  }
}
