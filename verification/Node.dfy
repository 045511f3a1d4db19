/**
 The whole state of one AODV daemon as a value: the globals of main.cc, the kernel's forwarding
 table, and what has been sent to the network and to the Local Agent.
 */
module Node {
  import opened Base
  import opened Params
  import opened Timers

  /** routing_flags: BROKEN_ROUTE, ACTIVE_ROUTE, INVALID_ROUTE. */
  datatype Flag = Broken | Active | Invalid

  datatype Entry = Entry(seqNum: u32, hop: u8, lastHop: u8, next: Addr, prec: seq<Addr>, life: int, flag: Flag)

  type Table = map<Addr, Entry>

  datatype Rreq = Rreq(g: bool, hop: u8, id: u32, dest: Addr, destSeq: u32, src: Addr, srcSeq: u32)

  datatype Rrep = Rrep(hop: u8, dest: Addr, destSeq: u32, src: Addr, life: u32)

  datatype Unreach = Unreach(dest: Addr, seqNum: u32)

  datatype Rerr = Rerr(nFlag: bool, destCnt: u8, dests: seq<Unreach>)

  datatype Msg = RreqMsg(rreq: Rreq) | RrepMsg(rrep: Rrep) | RerrMsg(rerr: Rerr)

  /** A packet handed to sendPacket; to == None is the broadcast address, ttl -1 leaves the socket's. */
  datatype Out = Out(to: Option<Addr>, ttl: int, msg: Msg)

  datatype Kind = RebootTimer | RreqTimer | HelloTimer | LrTimer | PeriodicTimer | RrepAckTimer | ActiveRouteTimer

  datatype Job = Job(kind: Kind, data: Addr)

  type Ttl = x: int | 1 <= x witness 1

  datatype Pending = Pending(rreq: Rreq, retries: nat, ttl: Ttl)

  /**
   What happened at the Local Agent socket, at route discovery, and to received floods, oldest
   first. A reply also records whether the kernel had a route to dst at the moment it was sent.
   */
  datatype Trace =
    | Request(dst: Addr, local: bool)
    | Reply(dst: Addr, found: bool, routed: bool)
    | Originated(dst: Addr)
    | Resent(dst: Addr)
    | Handled(src: Addr, id: u32, at: int)

  datatype Node = Node(
    ip: Addr,
    helloFlag: bool,
    reboot: bool,
    needHello: bool,
    rreqId: u32,
    localSeq: u32,
    table: Table,
    fib: map<Addr, Addr>,
    repair: set<Addr>,
    pending: seq<Pending>,
    fw: map<(Addr, u32), int>,
    tq: Queue<Job>,
    outbox: seq<Out>,
    trace: seq<Trace>)

  /**
   What one step reads from outside: the clock, the idle times reported by the route_check module
   (the flag says received or sent), and the contents of variables the source leaves uninitialised.
   */
  datatype Env = Env(now: int, idle: (Addr, bool) -> int, junkRrep: Rrep, junkG: bool, wild: Addr)

  /** A route as routing sees it, without lifetimes and precursors. */
  datatype Core = Core(seqNum: u32, hop: u8, lastHop: u8, next: Addr, flag: Flag)

  function CoreOf(e: Entry): Core {
    Core(e.seqNum, e.hop, e.lastHop, e.next, e.flag)
  }

  ghost predicate SameCores(t: Table, t': Table) {
    t'.Keys == t.Keys && forall k :: k in t ==> CoreOf(t'[k]) == CoreOf(t[k])
  }

  /** Same entries with the same flags and hop counts. */
  ghost predicate SameFlags(t: Table, t': Table) {
    t'.Keys == t.Keys && forall k :: k in t ==> t'[k].flag == t[k].flag && t'[k].hop == t[k].hop
  }

  predicate IsActive(t: Table, k: Addr) {
    k in t && t[k].flag.Active?
  }

  /** A route whose hop count is not INFINITY. */
  predicate IsLive(t: Table, k: Addr) {
    k in t && t[k].hop != INFINITY
  }

  function ActiveKeys(t: Table): set<Addr> {
    set k | k in t && t[k].flag.Active?
  }

  predicate DiscoveryFor(d: Addr, j: Job) {
    (j.kind.RreqTimer? || j.kind.LrTimer?) && j.data == d
  }

  /** Jobs of the RREQ or local repair timers of d. */
  function DiscoveryJob(d: Addr): Job -> bool {
    (j: Job) => DiscoveryFor(d, j)
  }

  function ActiveRouteJob(d: Addr): Job -> bool {
    (j: Job) => j.kind.ActiveRouteTimer? && j.data == d
  }

  lemma {:induction false} Least(s: set<Addr>) returns (k: Addr)
    requires s != {}
    ensures k in s
    ensures forall j :: j in s ==> k <= j
  {
    var x :| x in s;
    var rest := s - {x};
    k := x;
    if rest != {} {
      var y := Least(rest);
      k := if x < y then x else y;
    }
    forall j | j in s ensures k <= j {
      assert j == x || j in rest;
    }
  }

  function LeastOf(s: set<Addr>): (k: Addr)
    requires s != {}
    ensures k in s
    ensures forall j :: j in s ==> k <= j
  {
    assert exists k :: k in s && forall j :: j in s ==> k <= j by {
      var k := Least(s);
    }
    var k :| k in s && forall j :: j in s ==> k <= j;
    k
  }

  lemma KeysStep(s: set<Addr>, k: Addr, rest: seq<Addr>)
    requires k in s && forall j :: j in s ==> k <= j
    requires forall j :: j in rest <==> j in s - {k}
    requires forall i, j :: 0 <= i < j < |rest| ==> rest[i] < rest[j]
    ensures forall j :: j in [k] + rest <==> j in s
    ensures forall i, j :: 0 <= i < j < |[k] + rest| ==> ([k] + rest)[i] < ([k] + rest)[j]
  {
    forall i | 0 <= i < |rest| ensures k < rest[i] {
      assert rest[i] in rest;
    }
  }

  /** The keys of a std::map in iteration order. */
  function Keys(s: set<Addr>): (ks: seq<Addr>)
    ensures forall k :: k in ks <==> k in s
    ensures forall i, j :: 0 <= i < j < |ks| ==> ks[i] < ks[j]
  {
    if s == {} then []
    else
      var k := LeastOf(s);
      var rest := Keys(s - {k});
      KeysStep(s, k, rest);
      [k] + rest
  }
}
