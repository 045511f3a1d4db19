/**
 The running daemon: the globals of main.cc and the routines that update them in place. Each method
 is proved to do to the daemon's state what its namesake in module Steps does.
 */
module Aodv {
  import opened Base
  import opened Params
  import opened Node
  import opened Lists
  import opened TimerQueues
  import Timers
  import Steps
  import Schedule
  import Runs
  import Discoveries

  class Daemon {
    const ip: Addr
    const helloFlag: bool
    const localRepair: LocalRepair
    const rreqL: RreqPendingList
    const fwRreqL: FwRreqList
    const timerQ: TimerQueue<Job>
    var duringReboot: bool
    var needToSendHello: bool
    var rreqId: u32
    var localSeqNum: u32
    var table: Table
    var fib: map<Addr, Addr>
    var outbox: seq<Out>
    var trace: seq<Trace>

    ghost function Repr(): set<object> {
      {this, localRepair, rreqL, fwRreqL, timerQ}
    }

    ghost predicate Valid()
      reads Repr()
    {
      localRepair.Valid() && fwRreqL.Valid()
    }

    ghost function State(): Node
      reads Repr()
    {
      Node(ip, helloFlag, duringReboot, needToSendHello, rreqId, localSeqNum, table, fib, localRepair.Contents(),
           rreqL.list, fwRreqL.Contents(), timerQ.State(), outbox, trace)
    }

    /** aodv_daemon up to its main loop. */
    constructor (ip: Addr, helloFlag: bool, now: int)
      ensures Valid() && fresh(Repr())
      ensures State() == Runs.Boot(ip, helloFlag, now)
    {
      this.ip, this.helloFlag := ip, helloFlag;
      localRepair := new LocalRepair();
      rreqL := new RreqPendingList();
      fwRreqL := new FwRreqList();
      timerQ := new TimerQueue();
      duringReboot, needToSendHello, rreqId, localSeqNum := true, true, 0, 0;
      table, fib, outbox, trace := map[], map[], [], [];
      new;
      timerQ.TimerAdd(now, DELETE_PERIOD, Job(RebootTimer, 0));
      timerQ.SetRealTimer(now, DELETE_PERIOD);
      timerQ.SetTimer(now, PERIODIC_INTERVAL, Job(PeriodicTimer, 0));
    }

    // ---- sending ----

    /** sendPacket */
    method Send(to: Option<Addr>, ttl: int, msg: Msg)
      requires Valid()
      modifies this
      ensures Valid() && State() == Steps.Send(old(State()), to, ttl, msg)
    {
      if ttl == 0 {
        return;
      }
      if to.None? {
        needToSendHello := false;
      }
      outbox := outbox + [Out(to, ttl, msg)];
    }

    method Reply(dst: Addr, found: bool)
      requires Valid()
      modifies this
      ensures Valid() && State() == Steps.ReplyTo(old(State()), dst, found)
    {
      trace := trace + [Trace.Reply(dst, found, dst in fib)];
    }

    method GenerateRERR(dst: Addr, nFlag: bool, brdFlag: bool)
      requires Valid()
      modifies this
      ensures Valid() && State() == Steps.GenerateRERR(old(State()), dst, nFlag, brdFlag)
    {
      var precCnt, seqNum := 0, 0;
      if dst in table {
        seqNum := table[dst].seqNum;
        precCnt := |table[dst].prec|;
      }
      if precCnt > 0 || brdFlag {
        var rerr := RerrMsg(Rerr(nFlag, 1, [Unreach(dst, seqNum)]));
        if precCnt == 1 {
          Send(Some(table[dst].prec[0]), 1, rerr);
        } else {
          Send(None, 1, rerr);
        }
      }
    }

    // ---- the routing table ----

    method FindActiveRoute(dst: Addr, now: int) returns (found: bool)
      ensures found == Steps.FindActive(table, dst, now)
    {
      found := dst in table && table[dst].life > now && table[dst].flag == Active;
    }

    method FindValidRoute(dst: Addr, seqNum: u32) returns (found: bool)
      ensures found == Steps.FindValid(table, dst, seqNum)
    {
      found := dst in table && table[dst].seqNum >= seqNum && table[dst].flag == Active;
    }

    method GetTTL(dst: Addr, now: int) returns (ttl: u8)
      ensures ttl == Steps.GetTTL(table, dst, now)
    {
      if dst !in table {
        ttl := 0;
      } else if table[dst].hop != INFINITY && table[dst].life > now {
        ttl := table[dst].hop;
      } else {
        ttl := table[dst].lastHop;
      }
    }

    method GetDestSeqNum(dst: Addr) returns (seqNum: u32)
      ensures seqNum == Steps.SeqOf(table, dst)
    {
      if dst in table {
        seqNum := table[dst].seqNum;
      } else {
        seqNum := 0;
      }
    }

    method SetLifeTime(dst: Addr, life: int)
      requires Valid() && dst in table
      modifies this
      ensures Valid() && State() == old(State()).(table := old(table)[dst := old(table)[dst].(life := life)])
    {
      table := table[dst := table[dst].(life := life)];
    }

    method AddToPrecursor(d: Addr, precur: Addr)
      requires Valid() && d in table
      modifies this
      ensures Valid() && State() == old(State()).(table := Steps.AddPrecTo(old(table), d, precur))
    {
      var precursors := table[d].prec;
      var iter := 0;
      while iter != |precursors|
        invariant 0 <= iter <= |precursors|
        invariant precur !in precursors[..iter]
      {
        if precursors[iter] == precur {
          assert table[d := table[d]] == table;
          return;
        }
        iter := iter + 1;
      }
      table := table[d := table[d].(prec := precursors + [precur])];
    }

    /** add_kroute */
    method AddKroute(d: Addr)
      requires Valid() && d in table
      modifies this
      ensures Valid() && State() == old(State()).(fib := old(fib)[d := old(table)[d].next])
    {
      fib := fib[d := table[d].next];
    }

    /** del_kroute */
    method DelKroute(d: Addr)
      requires Valid()
      modifies this
      ensures Valid() && State() == old(State()).(fib := old(fib) - {d})
    {
      fib := fib - {d};
    }

    method GetNextHop(dst: Addr, now: int) returns (next: Addr)
      requires Valid()
      modifies this
      ensures Valid() && (State(), next) == Steps.GetNextHop(old(State()), dst, now)
    {
      var found := FindActiveRoute(dst, now);
      if found {
        SetLifeTime(dst, Max(table[dst].life, now + ACTIVE_ROUTE_TIMEOUT));
        next := table[dst].next;
      } else {
        next := 0;
      }
    }

    // ---- updates on received messages ----

    /** The tail of every route update: the timer of the discovery goes, and a repair ends. */
    method RemoveRREQTimer(dst: Addr, now: int) returns (wasRepair: bool)
      requires Valid()
      modifies localRepair, timerQ
      ensures Valid() && State() == Steps.EndDiscovery(old(State()), dst, now)
      ensures var job := Steps.HasDiscovery(old(State()).tq, dst);
              wasRepair == (job.Some? && job.value.kind.LrTimer?)
    {
      hide Timers.RemoveArmed, Timers.First, Timers.Arm;
      var ret := timerQ.RemoveArmed(now, DiscoveryJob(dst));
      wasRepair := ret.Some? && ret.value.kind.LrTimer?;
      if wasRepair {
        localRepair.DeleteFromList(dst);
      }
    }

    method RebootNeighborUpdate(nb: Addr, seqNum: u32, life: int)
      requires Valid()
      modifies this
      ensures Valid() && State() == old(State()).(table := Steps.NeighborTable(old(table), nb, seqNum, life))
    {
      if nb in table {
        table := table[nb := table[nb].(next := nb, life := life, hop := 1, seqNum := seqNum)];
        table := table[nb := table[nb].(flag := Active)];
      } else {
        table := table[nb := Entry(seqNum, 1, 0, nb, [], life, Active)];
      }
    }

    method ResetActiveTimer(nb: Addr, src: Addr, now: int)
      requires Valid()
      modifies timerQ
      ensures Valid() && State() == Steps.RefreshActiveTimer(old(State()), nb, src, now)
    {
      hide Timers.RemoveQuiet, Timers.SetTimer, Timers.First;
      var setTimer := false;
      var iter := timerQ.FindFirst(ActiveRouteJob(nb));
      if iter != |timerQ.timerQ| {
        timerQ.RemoveQuiet(ActiveRouteJob(nb));
        setTimer := true;
      } else if src == 0 {
        setTimer := true;
      }
      if setTimer {
        timerQ.SetTimer(now, NEIGHBOR_LIFE, Job(ActiveRouteTimer, nb));
      }
    }

    method NeighborUpdate(nb: Addr, src: Addr, seqNum: u32, life: int, now: int)
      requires Valid()
      modifies Repr()
      ensures Valid() && State() == Steps.NeighborUpdate(old(State()), nb, src, seqNum, life, now)
    {
      hide Steps.EndDiscovery, Steps.RefreshActiveTimer, Steps.ReplyTo;
      if nb in table {
        table := table[nb := table[nb].(next := nb, life := life, hop := 1, seqNum := seqNum)];
        if table[nb].flag != Active {
          table := table[nb := table[nb].(flag := Active)];
          AddKroute(nb);
        }
      } else {
        table := table[nb := Entry(seqNum, 1, 0, nb, [], life, Active)];
        AddKroute(nb);
      }
      assert table == Steps.NeighborTable(old(table), nb, seqNum, life);
      assert fib == if IsActive(old(table), nb) then old(fib) else old(fib)[nb := nb];
      Reply(nb, true);
      var _ := RemoveRREQTimer(nb, now);
      ResetActiveTimer(nb, src, now);
    }

    method RebootReverseRouteUpdate(nhop: Addr, m: Rreq, now: int)
      requires Valid()
      modifies this
      ensures Valid() && State() == old(State()).(table :=
        Steps.RouteTable(old(table), m.src, m.srcSeq, m.hop + 1, nhop, Steps.ReverseNew(old(table), m, now), true))
    {
      var d := m.src;
      if d in table {
        var e := table[d];
        if e.flag == Active {
          if m.srcSeq > e.seqNum || (m.srcSeq == e.seqNum && m.hop + 1 < e.hop) {
            e := e.(seqNum := m.srcSeq, next := nhop, hop := U8(m.hop + 1));
            var minLifeTime := now + PATH_TRAVERSAL_TIME - 2 * e.hop * NODE_TRAVERSAL_TIME;
            if minLifeTime > e.life {
              e := e.(life := minLifeTime);
            }
            table := table[d := e];
          }
        } else {
          e := e.(seqNum := m.srcSeq, next := nhop, hop := U8(m.hop + 1), flag := Active);
          var minLifeTime := now + PATH_TRAVERSAL_TIME - 2 * e.hop * NODE_TRAVERSAL_TIME;
          table := table[d := e.(life := minLifeTime)];
        }
      } else {
        var minLifeTime := now + PATH_TRAVERSAL_TIME - 2 * (m.hop + 1) * NODE_TRAVERSAL_TIME;
        table := table[d := Entry(m.srcSeq, U8(m.hop + 1), 0, nhop, [], minLifeTime, Active)];
      }
    }

    /** The reply, the timer and the repair list, behind both route updates. */
    method RouteFound(dst: Addr, now: int)
      requires Valid()
      modifies Repr()
      ensures Valid()
      ensures var n2 := Steps.ReplyTo(old(State()), dst, true);
              var n3 := Steps.EndDiscovery(n2, dst, now);
              var job := Steps.HasDiscovery(n2.tq, dst);
              State() == if job.Some? && job.value.kind.LrTimer? && dst in n3.table
                            && n3.table[dst].hop > n3.table[dst].lastHop
                         then Steps.GenerateRERR(n3, dst, true, false) else n3
    {
      hide Steps.EndDiscovery, Steps.GenerateRERR, Steps.ReplyTo, Steps.HasDiscovery;
      Reply(dst, true);
      var wasRepair := RemoveRREQTimer(dst, now);
      if wasRepair && dst in table && table[dst].hop > table[dst].lastHop {
        GenerateRERR(dst, true, false);
      }
    }

    /** The entry and the kernel route of reverseRouteUpdate. */
    method ReverseEntry(nhop: Addr, m: Rreq, now: int)
      requires Valid()
      modifies this
      ensures Valid() && State() == old(State()).(
        table := Steps.RouteTable(old(table), m.src, m.srcSeq, m.hop + 1, nhop,
                                  Steps.ReverseNew(old(table), m, now), true),
        fib := if Steps.Rewrites(old(table), m.src, m.srcSeq, m.hop + 1, nhop) then old(fib)[m.src := nhop]
               else old(fib))
    {
      hide U8;
      var d := m.src;
      if d in table {
        var e := table[d];
        if e.flag == Active {
          if m.srcSeq > e.seqNum || (m.srcSeq == e.seqNum && m.hop + 1 < e.hop) {
            ImproveReverse(nhop, m, now);
          }
        } else {
          e := e.(seqNum := m.srcSeq, next := nhop, hop := U8(m.hop + 1), flag := Active);
          var minLifeTime := now + PATH_TRAVERSAL_TIME - 2 * e.hop * NODE_TRAVERSAL_TIME;
          table := table[d := e.(life := minLifeTime)];
          AddKroute(d);
        }
      } else {
        var minLifeTime := now + PATH_TRAVERSAL_TIME - 2 * (m.hop + 1) * NODE_TRAVERSAL_TIME;
        table := table[d := Entry(m.srcSeq, U8(m.hop + 1), 0, nhop, [], minLifeTime, Active)];
        AddKroute(d);
      }
    }

    /** The branch of reverseRouteUpdate for a better offer to an active entry. */
    method ImproveReverse(nhop: Addr, m: Rreq, now: int)
      requires Valid() && IsActive(table, m.src) && Steps.Better(table[m.src], m.srcSeq, m.hop + 1)
      modifies this
      ensures Valid()
      ensures var e := old(table)[m.src];
              State() == old(State()).(
                table := old(table)[m.src := e.(seqNum := m.srcSeq, hop := U8(m.hop + 1), next := nhop,
                                                life := Max(Steps.ReverseLife(m.hop + 1, now), e.life))],
                fib := if m.hop + 1 < e.hop || e.next != nhop then old(fib)[m.src := nhop] else old(fib))
    {
      hide U8;
      var d, addFlag := m.src, false;
      var e := table[d];
      if m.hop + 1 < e.hop || e.next != nhop {
        DelKroute(d);
        addFlag := true;
      }
      e := e.(seqNum := m.srcSeq, next := nhop, hop := U8(m.hop + 1));
      var minLifeTime := now + PATH_TRAVERSAL_TIME - 2 * e.hop * NODE_TRAVERSAL_TIME;
      if minLifeTime > e.life {
        e := e.(life := minLifeTime);
      }
      table := table[d := e];
      if addFlag {
        AddKroute(d);
        assert fib == old(fib)[d := nhop];
      }
    }

    method ReverseRouteUpdate(nhop: Addr, m: Rreq, now: int)
      requires Valid()
      modifies Repr()
      ensures Valid() && State() == Steps.ReverseRouteUpdate(old(State()), nhop, m, now)
    {
      hide Steps.EndDiscovery, Steps.GenerateRERR, Steps.ReplyTo, Steps.HasDiscovery, Steps.RouteTable, Steps.Rewrites,
           Steps.ReverseNew;
      ReverseEntry(nhop, m, now);
      RouteFound(m.src, now);
    }

    method RebootForwardRouteUpdate(nhop: Addr, m: Rrep, now: int)
      requires Valid()
      modifies this
      ensures Valid() && State() == old(State()).(table :=
        Steps.RouteTable(old(table), m.dest, m.destSeq, m.hop + 1, nhop, now + m.life, false))
    {
      var d := m.dest;
      if d in table {
        if table[d].flag == Active {
          if m.destSeq > table[d].seqNum || (m.destSeq == table[d].seqNum && m.hop + 1 < table[d].hop) {
            table := table[d := table[d].(next := nhop, hop := U8(m.hop + 1), seqNum := m.destSeq,
                life := now + m.life)];
          }
        } else {
          table := table[d := table[d].(next := nhop, hop := U8(m.hop + 1), seqNum := m.destSeq, life := now + m.life,
                                        flag := Active)];
        }
      } else {
        table := table[d := Entry(m.destSeq, U8(m.hop + 1), 0, nhop, [], now + m.life, Active)];
      }
    }

    /** The entry and the kernel route of forwardRouteUpdate. */
    method ForwardEntry(nhop: Addr, m: Rrep, now: int)
      requires Valid()
      modifies this
      ensures Valid() && State() == old(State()).(
        table := Steps.RouteTable(old(table), m.dest, m.destSeq, m.hop + 1, nhop, now + m.life, false),
        fib := if Steps.Rewrites(old(table), m.dest, m.destSeq, m.hop + 1, nhop) then old(fib)[m.dest := nhop]
               else old(fib))
    {
      hide U8;
      var d := m.dest;
      if d in table {
        var e := table[d];
        if e.flag == Active {
          if m.destSeq > e.seqNum || (m.destSeq == e.seqNum && m.hop + 1 < e.hop) {
            var addFlag := false;
            if m.hop + 1 < e.hop || e.next != nhop {
              DelKroute(d);
              addFlag := true;
            }
            table := table[d := e.(next := nhop, hop := U8(m.hop + 1), seqNum := m.destSeq, life := now + m.life)];
            if addFlag {
              AddKroute(d);
              assert fib == old(fib)[d := nhop];
            }
          }
        } else {
          e := e.(next := nhop, hop := U8(m.hop + 1), seqNum := m.destSeq, life := now + m.life);
          table := table[d := e.(flag := Active)];
          AddKroute(d);
        }
      } else {
        table := table[d := Entry(m.destSeq, U8(m.hop + 1), 0, nhop, [], now + m.life, Active)];
        AddKroute(d);
      }
    }

    method ForwardRouteUpdate(nhop: Addr, m: Rrep, now: int)
      requires Valid()
      modifies Repr()
      ensures Valid() && State() == Steps.ForwardRouteUpdate(old(State()), nhop, m, now)
    {
      hide Steps.EndDiscovery, Steps.GenerateRERR, Steps.ReplyTo, Steps.HasDiscovery, Steps.RouteTable, Steps.Rewrites;
      ForwardEntry(nhop, m, now);
      RouteFound(m.dest, now);
    }

    // ---- RREQ ----

    method CreateRREQ(d: Addr, g: bool) returns (m: Rreq)
      requires Valid()
      modifies this
      ensures Valid() && (State(), m) == Steps.CreateRREQ(old(State()), d, g)
    {
      rreqId := U32(rreqId + 1);
      var destSeq := GetDestSeqNum(d);
      localSeqNum := U32(localSeqNum + 1);
      m := Rreq(g, 0, rreqId, d, destSeq, ip, localSeqNum);
    }

    method RecvRREQ(prevHop: Addr, m: Rreq, now: int) returns (m': Rreq, v: Steps.Verdict)
      requires Valid()
      modifies Repr()
      ensures Valid() && (State(), m', v) == Steps.RecvRREQ(old(State()), prevHop, m, now)
    {
      hide Steps.NeighborUpdate, Steps.ReverseRouteUpdate, Steps.FindValid, Lists.AsMap, U8;
      m' := m;
      if m.src == ip {
        return m, Steps.Ignore;
      }
      var seqNum := 0;
      if m.src == prevHop {
        seqNum := m.srcSeq;
      }
      NeighborUpdate(prevHop, m.src, seqNum, now + NEIGHBOR_LIFE, now);
      var seen := fwRreqL.InList(m.src, m.id);
      if seen {
        return m, Steps.Ignore;
      }
      fwRreqL.AddToList(m.src, m.id, now);
      trace := trace + [Handled(m.src, m.id, now)];
      if m.src != prevHop {
        ReverseRouteUpdate(prevHop, m, now);
      }
      if m.dest == ip {
        if m.destSeq > localSeqNum {
          localSeqNum := m.destSeq;
        }
        return m, Steps.GenRrep;
      }
      var valid := FindValidRoute(m.dest, m.destSeq);
      if valid {
        return m, Steps.GenRrep;
      }
      if m.dest in table && m.destSeq < table[m.dest].seqNum {
        m' := m'.(destSeq := table[m.dest].seqNum);
      }
      m' := m'.(hop := U8(m.hop + 1));
      v := Steps.FwdRreq;
    }

    method CreateRREP(prevHop: Addr, m: Rreq, env: Env) returns (rrep: Rrep)
      requires Valid()
      modifies this
      ensures Valid() && (State(), rrep) == Steps.CreateRREP(old(State()), prevHop, m, env)
    {
      hide Steps.AddPrecTo;
      rrep := env.junkRrep;
      if m.dest == ip {
        rrep := rrep.(destSeq := localSeqNum, hop := 0, life := MY_ROUTE_TIMEOUT);
      } else {
        var found := FindActiveRoute(m.dest, env.now);
        if found {
          var e := table[m.dest];
          rrep := rrep.(destSeq := e.seqNum, hop := e.hop);
          AddToPrecursor(m.dest, prevHop);
          rrep := rrep.(life := U32(e.life - env.now));
          var foundSrc := FindActiveRoute(m.src, env.now);
          if foundSrc {
            AddToPrecursor(m.src, e.next);
          }
        }
      }
      rrep := rrep.(dest := m.dest, src := m.src);
    }

    method CreateGRREP(m: Rreq, env: Env) returns (rrep: Rrep)
      requires Valid()
      ensures rrep == Steps.CreateGRREP(State(), m, env)
    {
      rrep := env.junkRrep;
      var found := FindActiveRoute(m.src, env.now);
      if found {
        rrep := rrep.(hop := table[m.src].hop, life := U32(table[m.src].life - env.now));
      }
      rrep := rrep.(dest := m.src, destSeq := m.srcSeq, src := m.dest);
    }

    method ProcessRREQ(prevHop: Addr, ttl: int, m: Rreq, env: Env)
      requires Valid()
      modifies Repr()
      ensures Valid() && State() == Steps.ProcessRREQ(old(State()), prevHop, ttl, m, env)
    {
      hide Steps.RecvRREQ, Steps.CreateRREP, Steps.CreateGRREP, Steps.GetNextHop, Steps.Send, Steps.RouteTable,
           Steps.NeighborTable, Steps.ReverseNew;
      if duringReboot {
        var seqNum := 0;
        if m.src == prevHop {
          seqNum := m.srcSeq;
        }
        RebootNeighborUpdate(prevHop, seqNum, env.now + NEIGHBOR_LIFE);
        if m.src != prevHop {
          RebootReverseRouteUpdate(prevHop, m, env.now);
        }
        if m.dest == ip && m.destSeq > localSeqNum {
          localSeqNum := m.destSeq;
        }
        return;
      }
      var m', result := RecvRREQ(prevHop, m, env.now);
      match result {
        case Ignore =>
        case FwdRreq =>
          if ttl > 0 {
            Send(None, ttl, RreqMsg(m'));
          }
        case GenRrep =>
          AnswerRREQ(prevHop, m, env);
      }
    }

    method Unicast(toward: Addr, m: Rrep, now: int)
      requires Valid()
      modifies this
      ensures Valid() && State() == Steps.Unicast(old(State()), toward, m, now)
    {
      hide Steps.GetNextHop, Steps.Send;
      var next := GetNextHop(toward, now);
      if next != 0 {
        Send(Some(next), -1, RrepMsg(m));
      }
    }

    method AnswerRREQ(prevHop: Addr, m: Rreq, env: Env)
      requires Valid()
      modifies this
      ensures Valid() && State() == Steps.AnswerRREQ(old(State()), prevHop, m, env)
    {
      hide Steps.CreateRREP, Steps.CreateGRREP, Steps.Unicast;
      var rrep := CreateRREP(prevHop, m, env);
      Unicast(m.src, rrep, env.now);
      if m.g && m.dest != ip {
        var grrep := CreateGRREP(m, env);
        Unicast(m.dest, grrep, env.now);
      }
    }

    // ---- RREP ----

    method RecvRREP(prevHop: Addr, m: Rrep, now: int) returns (m': Rrep, send: bool)
      requires Valid()
      modifies Repr()
      ensures Valid() && (State(), m', send) == Steps.RecvRREP(old(State()), prevHop, m, now)
    {
      hide Steps.NeighborUpdate, Steps.ForwardRouteUpdate, Steps.FindActive, Steps.AddPrecTo;
      var seqNum := 0;
      if m.dest == prevHop {
        seqNum := m.destSeq;
      }
      NeighborUpdate(prevHop, m.src, seqNum, now + NEIGHBOR_LIFE, now);
      if m.dest != prevHop {
        ForwardRouteUpdate(prevHop, m, now);
      }
      if m.src != ip && m.src != 0 {
        var dst := FindActiveRoute(m.dest, now);
        var src := FindActiveRoute(m.src, now);
        if dst && src {
          ActiveInTable(table, m.dest, now);
          ActiveInTable(table, m.src, now);
          AddToPrecursor(m.dest, table[m.src].next);
        }
        return m.(hop := U8(m.hop + 1)), true;
      }
      return m, false;
    }

    method ProcessRREP(prevHop: Addr, m: Rrep, env: Env)
      requires Valid()
      modifies Repr()
      ensures Valid() && State() == Steps.ProcessRREP(old(State()), prevHop, m, env)
    {
      hide Steps.RecvRREP, Steps.Unicast, Steps.NeighborTable, Steps.RouteTable;
      if duringReboot {
        var seqNum := 0;
        if m.dest == prevHop {
          seqNum := m.destSeq;
        }
        RebootNeighborUpdate(prevHop, seqNum, env.now + NEIGHBOR_LIFE);
        if m.dest != prevHop {
          RebootForwardRouteUpdate(prevHop, m, env.now);
        }
        return;
      }
      var m', send := RecvRREP(prevHop, m, env.now);
      if send {
        Unicast(m.src, m', env.now);
      }
    }

    // ---- RERR ----

    method UpdateInvalidEntries(dests: seq<Unreach>)
      requires Valid()
      modifies this
      ensures Valid() && State() == old(State()).(table := Steps.UpdateInvalid(old(table), dests))
    {
      var iter := 0;
      while iter != |dests|
        invariant 0 <= iter <= |dests|
        invariant Valid() && State() == old(State()).(table := table)
        invariant Steps.UpdateInvalid(table, dests[iter..]) == Steps.UpdateInvalid(old(table), dests)
      {
        var u := dests[iter];
        if u.dest in table && table[u.dest].hop == INFINITY {
          assert table[u.dest := table[u.dest].(seqNum := table[u.dest].seqNum)] == table;
          table := table[u.dest := table[u.dest].(seqNum := if u.seqNum > table[u.dest].seqNum then u.seqNum
                                                            else table[u.dest].seqNum)];
        }
        iter := iter + 1;
      }
    }

    /** The writes that both RERR loops make to an entry that goes down. */
    method InvalidateOne(u: Unreach, now: int)
      requires Valid() && u.dest in table
      modifies this, localRepair
      ensures Valid() && State() == Steps.InvalidateOne(old(State()), u, now)
    {
      var d := u.dest;
      if table[d].flag == Active {
        DelKroute(d);
      } else if table[d].flag == Broken {
        localRepair.DeleteFromList(d);
      }
      table := table[d := table[d].(lastHop := table[d].hop)];
      table := table[d := table[d].(hop := INFINITY, seqNum := u.seqNum, life := now + DELETE_PERIOD, flag := Invalid)];
    }

    method UpdateValidEntries(dests: seq<Unreach>, prevHop: Addr, now: int)
      requires Valid()
      modifies this, localRepair
      ensures Valid() && State() == Steps.UpdateValid(old(State()), dests, prevHop, now)
    {
      hide Steps.InvalidateOne;
      var iter := 0;
      while iter != |dests|
        invariant 0 <= iter <= |dests|
        invariant Valid()
        invariant Steps.UpdateValid(State(), dests[iter..], prevHop, now)
               == Steps.UpdateValid(old(State()), dests, prevHop, now)
      {
        var u := dests[iter];
        if u.dest in table && table[u.dest].hop != INFINITY {
          if table[u.dest].next == prevHop {
            InvalidateOne(u, now);
          }
        }
        iter := iter + 1;
      }
    }

    method CreateNewRERR(dests: seq<Unreach>, prevHop: Addr, now: int)
      returns (destCnt: u8, lost: seq<Unreach>, transmit: bool, nullWrite: bool)
      requires Valid()
      modifies this, localRepair
      ensures Valid() && State() == Steps.UpdateValid(old(State()), dests, prevHop, now)
      ensures lost == Steps.NewDests(old(State()), dests, prevHop, now) && destCnt == U8(|lost|)
      ensures transmit == Steps.HasPrec(old(table), lost)
      ensures nullWrite == Steps.WritesNull(old(table), lost)
    {
      hide Steps.InvalidateOne, Steps.HasPrec, Steps.WritesNull;
      NothingLost(old(table));
      var cnt: u8, precCnt, brdFlag := 0, 0, false;
      lost, nullWrite := [], false;
      var iter := 0;
      while iter != |dests|
        invariant 0 <= iter <= |dests|
        invariant Valid()
        invariant Steps.UpdateValid(State(), dests[iter..], prevHop, now)
               == Steps.UpdateValid(old(State()), dests, prevHop, now)
        invariant lost + Steps.NewDests(State(), dests[iter..], prevHop, now)
               == Steps.NewDests(old(State()), dests, prevHop, now)
        invariant cnt == U8(|lost|)
        invariant forall k :: Steps.PrecCount(table, k) == Steps.PrecCount(old(table), k)
        invariant 0 <= precCnt && (precCnt > 0 <==> Steps.HasPrec(old(table), lost))
        invariant brdFlag ==> precCnt > 0
        invariant nullWrite == Steps.WritesNull(old(table), lost)
        invariant precCnt > 0 && !brdFlag ==> nullWrite
      {
        var u := dests[iter];
        if u.dest in table && table[u.dest].hop != INFINITY {
          if table[u.dest].next == prevHop {
            InvalidateKeepsPrec(State(), u, now);
            InvalidateOne(u, now);
            cnt := U8(cnt + 1);
            HasPrecAppend(old(table), lost, u);
            WritesNullAppend(old(table), lost, u);
            lost := lost + [u];
            var tempPrecCnt := |table[u.dest].prec|;
            if tempPrecCnt > 1 {
              brdFlag := true;
              precCnt := precCnt + tempPrecCnt;
            }
            if !brdFlag && tempPrecCnt == 1 {
              nullWrite := true;
              precCnt := precCnt + tempPrecCnt;
            }
          }
        }
        iter := iter + 1;
      }
      destCnt := cnt;
      transmit := precCnt > 0;
    }

    method ForwardRERR(prevHop: Addr, m: Rerr, now: int)
      requires Valid()
      modifies this, localRepair
      ensures Valid() && State() == Steps.ForwardRERR(old(State()), prevHop, m, now)
    {
      hide Steps.UpdateValid, Steps.NewDests, Steps.HasPrec, Steps.Send;
      var destCnt, lost, transmit, _ := CreateNewRERR(m.dests, prevHop, now);
      if transmit {
        Send(None, 1, RerrMsg(Rerr(m.nFlag, destCnt, lost)));
      }
    }

    method ProcessRERR(prevHop: Addr, m: Rerr, env: Env)
      requires Valid()
      modifies Repr()
      ensures Valid() && State() == Steps.ProcessRERR(old(State()), prevHop, m, env)
    {
      hide Steps.NeighborTable, Steps.NeighborUpdate, Steps.UpdateInvalid, Steps.UpdateValid, Steps.ForwardRERR,
           Steps.GenerateRERR;
      if duringReboot {
        RebootNeighborUpdate(prevHop, 0, env.now + NEIGHBOR_LIFE);
        UpdateInvalidEntries(m.dests);
        UpdateValidEntries(m.dests, prevHop, env.now);
        return;
      }
      NeighborUpdate(prevHop, prevHop, 0, env.now + NEIGHBOR_LIFE, env.now);
      UpdateInvalidEntries(m.dests);
      if m.nFlag {
        if m.destCnt == 1 && |m.dests| > 0 {
          var u := m.dests[0];
          var found := FindActiveRoute(u.dest, env.now);
          if found && table[u.dest].next == prevHop {
            table := table[u.dest := table[u.dest].(seqNum := u.seqNum)];
            if |table[u.dest].prec| > 0 {
              GenerateRERR(u.dest, true, false);
            }
          }
        }
        return;
      }
      ForwardRERR(prevHop, m, env.now);
    }

    /** processRecvMsg */
    method Receive(from: Addr, ttl: int, msg: Msg, env: Env)
      requires Valid()
      modifies Repr()
      ensures Valid() && State() == Steps.Receive(old(State()), from, ttl, msg, env)
    {
      hide Steps.ProcessRREQ, Steps.ProcessRREP, Steps.ProcessRERR;
      if from == ip {
        return;
      }
      match msg {
        case RreqMsg(m) => ProcessRREQ(from, ttl - 1, m, env);
        case RrepMsg(m) => ProcessRREP(from, m, env);
        case RerrMsg(m) => ProcessRERR(from, m, env);
      }
    }

    // ---- route discovery ----

    method SetRREQTimer(d: Addr, ttl: Ttl, now: int)
      requires Valid()
      modifies timerQ
      ensures Valid() && State() == Steps.SetRREQTimer(old(State()), d, ttl, now)
    {
      timerQ.SetTimer(now, 2 * ttl * NODE_TRAVERSAL_TIME, Job(RreqTimer, d));
    }

    /** The lifetime and the ring that sendRREQ starts with. */
    method FirstRing(d: Addr, now: int) returns (ttl: Ttl)
      requires Valid()
      modifies this
      ensures Valid() && ttl == Steps.FirstTtl(table, d, now)
      ensures State() == old(State()).(table :=
        if d in old(table) then old(table)[d := old(table)[d].(life := now + PATH_TRAVERSAL_TIME)] else old(table))
    {
      hide Steps.GetTTL;
      if d in table {
        SetLifeTime(d, now + PATH_TRAVERSAL_TIME);
      }
      var t := GetTTL(d, now);
      if t == 0 {
        ttl := TTL_START;
      } else {
        ttl := t + TTL_INCREMENT;
      }
    }

    /** sendRREQ with expanding-ring search. */
    method SendRREQ(d: Addr, g: bool, now: int)
      requires Valid()
      modifies Repr()
      ensures Valid() && State() == Steps.SendRREQ(old(State()), d, g, now)
    {
      hide Steps.SetRREQTimer, Steps.Send, Steps.FirstTtl, Steps.CreateRREQ;
      if d == ip {
        return;
      }
      var m := CreateRREQ(d, g);
      var ttl := FirstRing(d, now);
      rreqL.AddToList(m, 0, ttl);
      trace := trace + [Originated(d)];
      SetRREQTimer(d, ttl, now);
      Send(None, ttl, RreqMsg(m));
    }

    /** Widens the ring of a pending entry, or counts a retry. */
    method WidenRing(iter: nat)
      requires Valid() && iter < |rreqL.list|
      modifies rreqL
      ensures Valid() && rreqL.list == old(rreqL.list)[iter := Steps.NextRing(old(rreqL.list)[iter])]
    {
      var p := rreqL.list[iter];
      if p.ttl == NET_DIAMETER {
        p := p.(retries := p.retries + 1);
      } else {
        p := p.(ttl := p.ttl + TTL_INCREMENT);
        if p.ttl >= TTL_THRESHOLD {
          p := p.(ttl := NET_DIAMETER, retries := p.retries + 1);
        }
      }
      rreqL.Set(iter, p);
    }

    method ResendRREQ(d: Addr, now: int)
      requires Valid()
      modifies Repr()
      ensures Valid() && State() == Steps.ResendRREQ(old(State()), d, now)
    {
      hide Steps.SetRREQTimer, Steps.Send, Steps.FirstPending, Steps.NextRing, Steps.SeqOf;
      hide Lists.AsMap;
      var iter := rreqL.InList(d);
      if iter == |rreqL.list| {
        return;
      }
      ghost var before := rreqL.list;
      Discoveries.NextRingDest(before[iter]);
      WidenRing(iter);
      var p := rreqL.list[iter];
      if p.retries > RREQ_RETRIES {
        FirstPendingIs(rreqL.list, iter, d);
        assert rreqL.list[..iter] + rreqL.list[iter + 1..] == before[..iter] + before[iter + 1..];
        rreqL.DeleteFromList(d);
        Reply(d, false);
        return;
      }
      RenewRREQ(iter, d);
      p := rreqL.list[iter];
      assert rreqL.list == before[iter := p];
      SetRREQTimer(d, p.ttl, now);
      Send(None, p.ttl, RreqMsg(p.rreq));
    }

    /** A pending RREQ gets a new id and new sequence numbers. */
    method RenewRREQ(iter: nat, d: Addr)
      requires Valid() && iter < |rreqL.list|
      modifies this, rreqL
      ensures Valid()
      ensures var p, id, s := old(rreqL.list)[iter], U32(old(rreqId) + 1), U32(old(localSeqNum) + 1);
              var m := p.rreq.(id := id, destSeq := Steps.SeqOf(table, d), srcSeq := s);
              State() == old(State()).(rreqId := id, localSeq := s, trace := old(trace) + [Resent(d)],
                                       pending := old(rreqL.list)[iter := p.(rreq := m)])
    {
      hide Steps.SeqOf;
      var p := rreqL.list[iter];
      rreqId := U32(rreqId + 1);
      var destSeq := GetDestSeqNum(d);
      localSeqNum := U32(localSeqNum + 1);
      rreqL.Set(iter, p.(rreq := p.rreq.(id := rreqId, destSeq := destSeq, srcSeq := localSeqNum)));
      trace := trace + [Resent(d)];
    }

    method DoLocalRepair(d: Addr, g: bool, now: int)
      requires Valid()
      modifies Repr()
      ensures Valid() && State() == Steps.DoLocalRepair(old(State()), d, g, now)
    {
      hide Steps.Send;
      var m := CreateRREQ(d, g);
      var minRepairTtl := 0;
      if d in table {
        minRepairTtl := table[d].lastHop;
      }
      var ttl := minRepairTtl + LOCAL_ADD_TTL;
      timerQ.SetTimer(now, 2 * ttl * NODE_TRAVERSAL_TIME, Job(LrTimer, d));
      Send(None, ttl, RreqMsg(m));
    }

    method LRHandler(d: Addr, now: int)
      requires Valid()
      modifies Repr()
      ensures Valid() && State() == Steps.LRHandler(old(State()), d, now)
    {
      hide Steps.GenerateRERR;
      Reply(d, false);
      if d in table {
        var e := table[d];
        e := e.(lastHop := e.hop);
        table := table[d := e.(hop := INFINITY, life := now + DELETE_PERIOD, flag := Invalid)];
      }
      GenerateRERR(d, false, false);
      var iter := localRepair.FindInList(d);
      if iter.Some? {
        localRepair.DeleteAt(iter.value);
      } else {
        assert localRepair.Contents() - {d} == localRepair.Contents();
      }
    }

    // ---- requests of the Local Agent ----

    method ResetRebootTimer(now: int)
      requires Valid()
      modifies timerQ
      ensures Valid() && State() == old(State()).(tq := Steps.ResetRebootTimer(old(State()).tq, now))
    {
      var iter := 0;
      while iter != |timerQ.timerQ|
        invariant 0 <= iter <= |timerQ.timerQ|
        invariant forall j :: 0 <= j < iter ==> !timerQ.timerQ[j].what.kind.RebootTimer?
      {
        if timerQ.timerQ[iter].what.kind == RebootTimer {
          assert iter == Steps.FirstReboot(timerQ.timerQ);
          timerQ.Postpone(iter, now, DELETE_PERIOD, timerQ.timerQ[0].what.kind == timerQ.timerQ[iter].what.kind);
          return;
        }
        iter := iter + 1;
      }
    }

    /** process_asl */
    method AgentRequest(d: Addr, src: Addr, tcp: bool, env: Env)
      requires Valid()
      modifies Repr()
      ensures Valid() && State() == Steps.AgentRequest(old(State()), d, src, tcp, env)
    {
      hide Steps.ResetRebootTimer, Steps.GenerateRERR, Steps.SendRREQ, Steps.DoLocalRepair, Steps.FindActive;
      trace := trace + [Request(d, src == ip)];
      if duringReboot {
        if src == ip {
          Reply(d, false);
          return;
        }
        ResetRebootTimer(env.now);
        Reply(d, false);
        GenerateRERR(d, false, true);
        return;
      }
      var found := FindActiveRoute(d, env.now);
      if found {
        Reply(d, true);
        return;
      }
      var g := env.junkG;
      if src == ip {
        if tcp {
          g := true;
        }
        SendRREQ(d, g, env.now);
      } else {
        var iter := localRepair.FindInList(d);
        if iter.Some? {
          g := tcp;
          if d in table && table[d].flag == Broken {
            DoLocalRepair(d, g, env.now);
          }
        } else {
          Reply(d, false);
          GenerateRERR(d, false, d !in table);
        }
      }
    }

    // ---- timer handlers ----

    method NeighborTimeoutHandler(dst: Addr, env: Env)
      requires Valid()
      modifies this, localRepair
      ensures Valid() && State() == Steps.NeighborTimeout(old(State()), dst, env)
    {
      hide Steps.BreakNeighbor;
      localRepair.AddToList(dst);
      if dst in table {
        BreakEntry(dst, env.now);
      }
      var via := if dst in table then dst else env.wild;
      BreakThrough(dst, via, env.now);
    }

    /** The other entries that lose their route with the neighbour dst. */
    method BreakThrough(dst: Addr, via: Addr, now: int)
      requires Valid()
      modifies this, localRepair
      ensures Valid()
      ensures State() == old(State()).(table := Steps.BreakVia(old(table), dst, via, now),
                                       fib := old(fib) - Steps.BrokenVia(old(table), dst, via),
                                       repair := old(localRepair.Contents()) + Steps.BrokenVia(old(table), dst, via))
    {
      hide BreakSet, Steps.BreakVia, Visited, Keys;
      ghost var start := State();
      ghost var down := Steps.BrokenVia(start.table, dst, via);
      BreakNone(start, now);
      var keys := Keys(table.Keys);
      VisitEnds(keys, down);
      var iter := 0;
      while iter != |keys|
        invariant 0 <= iter <= |keys|
        invariant Valid()
        invariant State() == BreakSet(start, Visited(keys[..iter], down), now)
      {
        var k := keys[iter];
        VisitNext(keys, iter, down);
        BreakStep(start, Visited(keys[..iter], down), k, now);
        if k != dst && via == table[k].next && table[k].flag == Active {
          BreakRoute(k, now);
        }
        iter := iter + 1;
      }
      BreakSetIsBreakVia(start, dst, via, now);
    }

    method BreakRoute(k: Addr, now: int)
      requires Valid() && k in table
      modifies this, localRepair
      ensures Valid() && State() == BreakSet(old(State()), {k}, now)
    {
      localRepair.AddToList(k);
      var e := table[k];
      e := e.(flag := Broken, life := now + ACTIVE_ROUTE_TIMEOUT);
      e := e.(lastHop := e.hop, seqNum := U32(e.seqNum + 1));
      table := table[k := e];
      DelKroute(k);
      assert table == BreakSet(old(State()), {k}, now).table;
    }

    /** What neighbor_timeout_handler does to the entry of the silent neighbour itself. */
    method BreakEntry(d: Addr, now: int)
      requires Valid() && d in table
      modifies this
      ensures Valid()
      ensures State() == old(State()).(table := old(table)[d := Steps.BreakNeighbor(old(table)[d], now)],
                                       fib := if old(table)[d].hop != INFINITY then old(fib) - {d} else old(fib))
    {
      var e := table[d];
      e := e.(flag := Broken, life := now + 10 * ACTIVE_ROUTE_TIMEOUT);
      if e.hop == INFINITY {
        e := e.(hop := e.lastHop);
      } else {
        e := e.(lastHop := e.hop, seqNum := U32(e.seqNum + 1));
        DelKroute(d);
      }
      table := table[d := e];
    }

    /** The idle time refreshEntries works out for the entry of k. */
    method IdleTime(k: Addr, env: Env) returns (timeIdle: int)
      requires Valid() && k in table
      ensures timeIdle == Steps.IdleTime(table, k, env)
    {
      hide Keys, Steps.LeastIdle;
      timeIdle := env.idle(k, true);
      if timeIdle < 0 {
        timeIdle := 2 * ACTIVE_ROUTE_TIMEOUT;
      }
      if table[k].hop == 1 {
        var keys := Keys(table.Keys);
        ghost var own := timeIdle;
        var iter := 0;
        while iter != |keys|
          invariant 0 <= iter <= |keys|
          invariant Steps.LeastIdle(table, k, keys[iter..], timeIdle, env) == Steps.LeastIdle(table, k, keys, own, env)
        {
          var j := keys[iter];
          assert j in keys;
          LeastIdleNext(table, k, keys, iter, timeIdle, env);
          if j != k && k == table[j].next {
            var temp := env.idle(j, false);
            if temp != -1 && temp < timeIdle {
              timeIdle := temp;
            }
          }
          iter := iter + 1;
        }
        LeastIdleEnd(table, k, timeIdle, env);
        assert keys[iter..] == [];
      }
    }

    /** The writes refreshEntries makes to an entry it invalidates. */
    method InvalidateEntry(k: Addr, now: int)
      requires Valid() && k in table
      modifies this
      ensures Valid() && State() == Steps.Kill(old(State()), {k}, now)
    {
      ghost var before := table;
      if table[k].flag == Active {
        DelKroute(k);
        table := table[k := table[k].(seqNum := U32(table[k].seqNum + 1), lastHop := table[k].hop)];
      }
      table := table[k := table[k].(hop := INFINITY, life := now + DELETE_PERIOD, flag := Invalid)];
      KillSingle(old(State()), k, now);
    }

    /** The entries routed through the neighbour k that was just invalidated. */
    method InvalidateThrough(k: Addr, now: int)
      requires Valid()
      modifies this
      ensures Valid()
      ensures State() == Steps.Kill(old(State()), (set j | j in old(table) && Steps.Through(old(table), j, k)), now)
    {
      hide Steps.Kill, Keys, Visited;
      ghost var start := State();
      ghost var dead := set j | j in start.table && Steps.Through(start.table, j, k);
      KillNone(start, now);
      var keys := Keys(table.Keys);
      VisitEnds(keys, dead);
      var iter := 0;
      while iter != |keys|
        invariant 0 <= iter <= |keys|
        invariant Valid()
        invariant State() == Steps.Kill(start, Visited(keys[..iter], dead), now)
      {
        var j := keys[iter];
        VisitNext(keys, iter, dead);
        KillStep(start, Visited(keys[..iter], dead), j, now);
        if j != k && k == table[j].next && table[j].hop != INFINITY {
          InvalidateEntry(j, now);
        }
        iter := iter + 1;
      }
    }

    /** One turn of the loop of refreshEntries. */
    method RefreshEntry(k: Addr, env: Env)
      requires Valid() && k in table
      modifies this
      ensures Valid() && State() == Steps.RefreshOne(old(State()), k, env)
    {
      hide Steps.Kill, Steps.IdleTime;
      if table[k].life <= env.now {
        if table[k].hop == INFINITY {
          table := table - {k};
        } else {
          var timeIdle := IdleTime(k, env);
          if timeIdle < ACTIVE_ROUTE_TIMEOUT {
            var life := env.now - timeIdle + ACTIVE_ROUTE_TIMEOUT;
            table := table[k := table[k].(life := life)];
            if table[k].next in table {
              SetLifeTime(table[k].next, life);
            }
          } else {
            var prevHopCnt := table[k].hop;
            KillDead(State(), k, env.now);
            InvalidateEntry(k, env.now);
            if prevHopCnt == 1 {
              InvalidateThrough(k, env.now);
            }
          }
        }
      }
    }

    method RefreshEntries(env: Env)
      requires Valid()
      modifies this
      ensures Valid() && State() == Steps.RefreshEntries(old(State()), env)
    {
      hide Steps.RefreshOne, Keys;
      var keys := Keys(table.Keys);
      var iter := 0;
      while iter != |keys|
        invariant 0 <= iter <= |keys|
        invariant Valid()
        invariant forall j :: iter <= j < |keys| ==> keys[j] in table
        invariant Steps.RefreshAll(State(), keys[iter..], env) == Steps.RefreshAll(old(State()), keys, env)
      {
        RefreshDomain(State(), keys[iter], env);
        RefreshEntry(keys[iter], env);
        iter := iter + 1;
      }
    }

    method SendHello(now: int)
      requires Valid()
      modifies this, timerQ
      ensures Valid() && State() == Steps.SendHello(old(State()), now)
    {
      hide Steps.Send;
      if needToSendHello {
        Send(None, 1, RrepMsg(Rrep(0, ip, localSeqNum, 0, NEIGHBOR_LIFE)));
      }
      timerQ.TimerAdd(now, HELLO_INTERVAL, Job(HelloTimer, 0));
      needToSendHello := true;
    }

    method AddAllValidRoutes()
      requires Valid()
      modifies this
      ensures Valid()
      ensures State() == old(State()).(fib := old(fib) + Routes(old(table), old(table).Keys))
    {
      hide Keys, Routes, Visited;
      RoutesNone(table, fib);
      var keys := Keys(table.Keys);
      VisitEnds(keys, table.Keys);
      var iter := 0;
      while iter != |keys|
        invariant 0 <= iter <= |keys|
        invariant Valid() && State() == old(State()).(fib := fib)
        invariant fib == old(fib) + Routes(table, Visited(keys[..iter], table.Keys))
      {
        var k := keys[iter];
        VisitNext(keys, iter, table.Keys);
        RoutesNext(table, Visited(keys[..iter], table.Keys), k);
        if table[k].flag == Active {
          AddKroute(k);
        }
        iter := iter + 1;
      }
    }

    method RebootHandler(now: int)
      requires Valid()
      modifies this, timerQ
      ensures Valid() && State() == Steps.RebootHandler(old(State()), now)
    {
      hide Steps.SendHello, Steps.RebootDone, Routes;
      RebootDoneIs(State());
      duringReboot := false;
      AddAllValidRoutes();
      if helloFlag {
        SendHello(now);
      }
    }

    method PeriodicHandler(env: Env)
      requires Valid()
      modifies Repr()
      ensures Valid() && State() == Steps.PeriodicHandler(old(State()), env)
    {
      hide Steps.RefreshEntries, Steps.LiveFw;
      timerQ.TimerAdd(env.now, PERIODIC_INTERVAL, Job(PeriodicTimer, 0));
      RefreshEntries(env);
      fwRreqL.UpdateEntries(env.now);
    }

    /** The handler a timer was queued with. */
    method Handle(j: Job, env: Env)
      requires Valid()
      modifies Repr()
      ensures Valid() && State() == Steps.Handle(old(State()), j, env)
    {
      hide Steps.RebootHandler, Steps.ResendRREQ, Steps.SendHello, Steps.LRHandler, Steps.PeriodicHandler,
           Steps.NeighborTimeout;
      match j.kind {
        case RebootTimer => RebootHandler(env.now);
        case RreqTimer => ResendRREQ(j.data, env.now);
        case HelloTimer => SendHello(env.now);
        case LrTimer => LRHandler(j.data, env.now);
        case PeriodicTimer => PeriodicHandler(env);
        case RrepAckTimer =>
        case ActiveRouteTimer => NeighborTimeoutHandler(j.data, env);
      }
    }

    /** scheduleTimer, on SIGALRM. */
    method ScheduleTimer(env: Env)
      requires Valid()
      modifies Repr()
      ensures Valid() && State() == Schedule.ScheduleTimer(old(State()), env)
    {
      hide Steps.Handle;
      while timerQ.timerQ != [] && timerQ.timerQ[0].timeout <= env.now
        invariant Valid() && Schedule.ScheduleTimer(State(), env) == Schedule.ScheduleTimer(old(State()), env)
        decreases Timers.CountDue(timerQ.timerQ, env.now)
      {
        Schedule.HeadStays(State(), env);
        ghost var next := Schedule.FireHead(State(), env);
        Handle(timerQ.timerQ[0].what, env);
        timerQ.EraseHead();
        assert State() == next;
      }
      timerQ.Rearm(env.now);
    }

    /** One turn of the main loop, or one SIGALRM: what the run theorems call a step. */
    method Dispatch(ev: Runs.Event, env: Env)
      requires Valid()
      modifies Repr()
      ensures Valid() && State() == Runs.Step(old(State()), ev, env)
      ensures Runs.NodeInv(old(State())) && Runs.EventOk(old(State()), ev) ==> Runs.NodeInv(State())
    {
      hide Steps.Receive, Steps.AgentRequest, Schedule.ScheduleTimer, Runs.NodeInv, Runs.EventOk;
      if Runs.NodeInv(State()) && Runs.EventOk(State(), ev) {
        Runs.StepKeeps(State(), ev, env);
      }
      match ev {
        case Recv(from, ttl, msg) => Receive(from, ttl, msg, env);
        case Ask(d, src, tcp) => AgentRequest(d, src, tcp, env);
        case Alarm =>
          timerQ.AlarmFires();
          ScheduleTimer(env);
      }
    }
  }

  lemma ActiveInTable(t: Table, d: Addr, now: int)
    requires Steps.FindActive(t, d, now)
    ensures d in t
  {
  }

  lemma FirstPendingIs(l: seq<Pending>, i: nat, d: Addr)
    requires i < |l| && l[i].rreq.dest == d
    requires forall j :: 0 <= j < i ==> l[j].rreq.dest != d
    ensures Steps.FirstPending(l, d) == i
  {
  }

  lemma NothingLost(t: Table)
    ensures !Steps.HasPrec(t, []) && !Steps.WritesNull(t, [])
  {
  }

  lemma HasPrecAppend(t: Table, lost: seq<Unreach>, u: Unreach)
    ensures Steps.HasPrec(t, lost + [u]) <==> Steps.HasPrec(t, lost) || Steps.PrecCount(t, u.dest) > 0
  {
    if Steps.HasPrec(t, lost) {
      var i :| 0 <= i < |lost| && Steps.PrecCount(t, lost[i].dest) > 0;
      assert (lost + [u])[i] == lost[i];
    }
    assert (lost + [u])[|lost|] == u;
  }

  lemma WritesNullAppend(t: Table, lost: seq<Unreach>, u: Unreach)
    ensures Steps.WritesNull(t, lost + [u])
      <==> Steps.WritesNull(t, lost) || (!Steps.HasPrec(t, lost) && Steps.PrecCount(t, u.dest) == 1)
  {
    assert (lost + [u])[|lost|] == u;
    assert forall i :: 0 <= i < |lost| ==> (lost + [u])[i] == lost[i];
  }

  lemma InvalidateKeepsPrec(n: Node, u: Unreach, now: int)
    requires u.dest in n.table
    ensures var n' := Steps.InvalidateOne(n, u, now);
            n'.table.Keys == n.table.Keys && forall k :: Steps.PrecCount(n'.table, k) == Steps.PrecCount(n.table, k)
  {
  }

  /** The members of s among the keys already visited. */
  ghost function Visited(ks: seq<Addr>, s: set<Addr>): set<Addr> {
    set k | k in ks && k in s
  }

  lemma VisitNext(ks: seq<Addr>, i: nat, s: set<Addr>)
    requires i < |ks| && forall a, b :: 0 <= a < b < |ks| ==> ks[a] < ks[b]
    ensures ks[i] in ks && ks[i] !in Visited(ks[..i], s)
    ensures Visited(ks[..i + 1], s) == if ks[i] in s then Visited(ks[..i], s) + {ks[i]} else Visited(ks[..i], s)
  {
  }

  lemma VisitEnds(ks: seq<Addr>, s: set<Addr>)
    requires forall k :: k in s ==> k in ks
    ensures Visited(ks[..0], s) == {} && Visited(ks[..|ks|], s) == s
  {
  }

  /** The kernel routes of the active entries among s. */
  ghost function Routes(t: Table, s: set<Addr>): map<Addr, Addr> {
    map k | k in s && k in t && t[k].flag.Active? :: t[k].next
  }

  lemma RoutesNone(t: Table, fib: map<Addr, Addr>)
    ensures fib + Routes(t, {}) == fib
  {
  }

  lemma RoutesNext(t: Table, s: set<Addr>, k: Addr)
    requires k in t
    ensures Routes(t, s + {k}) == if t[k].flag.Active? then Routes(t, s)[k := t[k].next] else Routes(t, s)
  {
  }

  lemma RebootDoneIs(n: Node)
    ensures Steps.RebootDone(n) == n.(reboot := false, fib := n.fib + Routes(n.table, n.table.Keys))
  {
  }

  ghost function BreakSet(n: Node, s: set<Addr>, now: int): Node {
    n.(table := map k | k in n.table ::
         if k in s then n.table[k].(flag := Broken, life := now + ACTIVE_ROUTE_TIMEOUT, lastHop := n.table[k].hop,
                                    seqNum := U32(n.table[k].seqNum + 1))
         else n.table[k],
       fib := n.fib - s,
       repair := n.repair + s)
  }

  lemma BreakNone(n: Node, now: int)
    ensures BreakSet(n, {}, now) == n
  {
  }

  lemma BreakStep(n: Node, s: set<Addr>, k: Addr, now: int)
    requires k in n.table && k !in s
    ensures var m := BreakSet(n, s, now);
            m.table.Keys == n.table.Keys && m.table[k] == n.table[k]
            && BreakSet(m, {k}, now) == BreakSet(n, s + {k}, now)
  {
    var m, m' := BreakSet(n, s, now), BreakSet(n, s + {k}, now);
    assert BreakSet(m, {k}, now).table == m'.table;
    assert BreakSet(m, {k}, now).fib == m'.fib;
    assert BreakSet(m, {k}, now).repair == m'.repair;
  }

  lemma BreakSetIsBreakVia(n: Node, nb: Addr, via: Addr, now: int)
    ensures BreakSet(n, Steps.BrokenVia(n.table, nb, via), now)
         == n.(table := Steps.BreakVia(n.table, nb, via, now), fib := n.fib - Steps.BrokenVia(n.table, nb, via),
               repair := n.repair + Steps.BrokenVia(n.table, nb, via))
  {
  }

  lemma KillNone(n: Node, now: int)
    ensures Steps.Kill(n, {}, now) == n
  {
  }

  lemma KillSingle(n: Node, k: Addr, now: int)
    requires k in n.table
    ensures Steps.Kill(n, {k}, now)
         == n.(table := n.table[k := Steps.Invalidate(n.table[k], now)],
               fib := if n.table[k].flag.Active? then n.fib - {k} else n.fib)
  {
  }

  lemma KillStep(n: Node, s: set<Addr>, k: Addr, now: int)
    requires k in n.table && k !in s
    ensures var m := Steps.Kill(n, s, now);
            m.table.Keys == n.table.Keys && m.table[k] == n.table[k]
            && Steps.Kill(m, {k}, now) == Steps.Kill(n, s + {k}, now)
  {
    var m := Steps.Kill(n, s, now);
    assert Steps.Kill(m, {k}, now).table == Steps.Kill(n, s + {k}, now).table;
    assert Steps.Kill(m, {k}, now).fib == Steps.Kill(n, s + {k}, now).fib;
  }

  /** Invalidating k first does not change which other entries go through it. */
  lemma KillDead(n: Node, k: Addr, now: int)
    requires k in n.table
    ensures var m := Steps.Kill(n, {k}, now);
            Steps.Kill(n, Steps.Dead(n.table, k), now)
            == if n.table[k].hop == 1 then Steps.Kill(m, (set j | j in m.table && Steps.Through(m.table, j, k)), now)
               else m
  {
    var m := Steps.Kill(n, {k}, now);
    var rest := set j | j in m.table && Steps.Through(m.table, j, k);
    if n.table[k].hop == 1 {
      assert Steps.Dead(n.table, k) == {k} + rest;
      assert Steps.Kill(m, rest, now).table == Steps.Kill(n, {k} + rest, now).table;
      assert Steps.Kill(m, rest, now).fib == Steps.Kill(n, {k} + rest, now).fib;
    } else {
      assert Steps.Dead(n.table, k) == {k};
    }
  }

  lemma LeastIdleNext(t: Table, k: Addr, ks: seq<Addr>, i: nat, idle: int, env: Env)
    requires i < |ks| && ks[i] in t
    ensures var j := ks[i];
            var temp := if j != k && t[j].next == k then env.idle(j, false) else -1;
            Steps.LeastIdle(t, k, ks[i..], idle, env)
            == Steps.LeastIdle(t, k, ks[i + 1..], if temp != -1 && temp < idle then temp else idle, env)
  {
  }

  lemma LeastIdleEnd(t: Table, k: Addr, idle: int, env: Env)
    ensures Steps.LeastIdle(t, k, [], idle, env) == idle
  {
  }

  lemma RefreshDomain(n: Node, k: Addr, env: Env)
    ensures forall j :: j in n.table && j != k ==> j in Steps.RefreshOne(n, k, env).table
  {
  }
}
