/**
 Neighbour discovery (lib/ND) as functions on values: one table of one-hop neighbours per interface,
 and one timer queue for all of them.
 */
module Neighbors {
  import opened Base
  import opened Timers

  const NO_ENTRY: u8 := 0
  const HEARD: u8 := 1
  const SYMMETRIC: u8 := 2
  const LIVE_TIME: u32 := 6000

  /** One line of a neighbour's own table: an address and its link status there. */
  datatype Listing = Listing(ip: Addr, status: u8)

  datatype Hello = Hello(locals: seq<Addr>, nbrs: seq<Listing>, live: u32)

  datatype TwoHop = TwoHop(ip: Addr, gateway: Addr, status: u8)

  datatype OneHop = OneHop(ip: Addr, quality: int, locals: seq<Addr>, twoHops: seq<TwoHop>, status: u8, live: u32)

  /** interval 0 means that hellos are sent on demand only. */
  datatype Iface = Iface(name: string, address: Addr, interval: nat, table: seq<OneHop>)

  datatype Kind = HelloTimer | EntryTimer

  datatype Job = Job(kind: Kind, data: Addr, iface: nat)

  /** sent: the hellos broadcast so far, with the interface. */
  datatype Nd = Nd(ifs: seq<Iface>, tq: Queue<Job>, sent: seq<(nat, Hello)>)

  ghost predicate DistinctNames(ifs: seq<Iface>) {
    forall i, j :: 0 <= i < j < |ifs| ==> ifs[i].name != ifs[j].name
  }

  /** Index of the entry for a, or the length of the table. */
  function Find(table: seq<OneHop>, a: Addr): (k: nat)
    ensures k <= |table|
    ensures forall j :: 0 <= j < k ==> table[j].ip != a
    ensures k < |table| ==> table[k].ip == a
  {
    if table == [] || table[0].ip == a then 0 else 1 + Find(table[1..], a)
  }

  lemma FindUnique(table: seq<OneHop>, a: Addr, k: nat)
    requires k <= |table|
    requires forall j :: 0 <= j < k ==> table[j].ip != a
    requires k < |table| ==> table[k].ip == a
    ensures k == Find(table, a)
  {
  }

  /** Index of the first listing of self, or the length of the list. */
  function FirstListing(nbrs: seq<Listing>, self: Addr): (k: nat)
    ensures k <= |nbrs|
    ensures forall j :: 0 <= j < k ==> nbrs[j].ip != self
    ensures k < |nbrs| ==> nbrs[k].ip == self
  {
    if nbrs == [] || nbrs[0].ip == self then 0 else 1 + FirstListing(nbrs[1..], self)
  }

  lemma FirstListingIs(nbrs: seq<Listing>, self: Addr, k: nat)
    requires k <= |nbrs| && (forall j :: 0 <= j < k ==> nbrs[j].ip != self) && (k < |nbrs| ==> nbrs[k].ip == self)
    ensures k == FirstListing(nbrs, self)
  {
  }

  /** Does the sender of the hello hear this interface? */
  predicate HearsUs(h: Hello, self: Addr) {
    var k := FirstListing(h.nbrs, self);
    k < |h.nbrs| && h.nbrs[k].status != NO_ENTRY
  }

  /** The neighbours of src other than this interface. */
  function TwoHopsOf(nbrs: seq<Listing>, self: Addr, src: Addr): seq<TwoHop> {
    if nbrs == [] then []
    else
      var l := nbrs[|nbrs| - 1];
      TwoHopsOf(nbrs[..|nbrs| - 1], self, src) + if l.ip != self then [TwoHop(l.ip, src, l.status)] else []
  }

  function EntryFor(self: Addr, src: Addr, h: Hello): OneHop {
    OneHop(src, 0, h.locals, TwoHopsOf(h.nbrs, self, src), if HearsUs(h, self) then SYMMETRIC else HEARD, h.live)
  }

  /** The ENTRY timer of neighbour a on the interface called name. */
  function EntryJob(ifs: seq<Iface>, a: Addr, name: string): Job -> bool {
    (j: Job) => j.kind.EntryTimer? && j.data == a && j.iface < |ifs| && ifs[j.iface].name == name
  }

  /** is_set_now: the type and the interface, not the address. */
  predicate Alike(a: Job, b: Job) {
    a.kind == b.kind && a.iface == b.iface
  }

  /** remove_neighbor_entry_timer */
  function RemoveEntryTimer(tq: Queue<Job>, p: Job -> bool, now: int): Queue<Job> {
    var q := tq.list;
    var i := First(q, p);
    if i == |q| then tq
    else Queue(RemoveFirst(q, p),
               if Alike(q[0].what, q[i].what) && i + 1 < |q| then Arm(now, q[i + 1].timeout - now) else tq.alarm)
  }

  /** update_info: the quality of an entry that is already there is left alone. */
  function UpdateInfo(nd: Nd, i: nat, src: Addr, h: Hello, now: int): Nd
    requires i < |nd.ifs|
  {
    var f := nd.ifs[i];
    var k := Find(f.table, src);
    var e := EntryFor(f.address, src, h);
    var table := if k < |f.table| then f.table[k := e.(quality := f.table[k].quality)] else f.table + [e];
    var tq := if k < |f.table| then RemoveEntryTimer(nd.tq, EntryJob(nd.ifs, src, f.name), now) else nd.tq;
    nd.(ifs := nd.ifs[i := f.(table := table)], tq := SetTimer(tq, now, h.live, Job(EntryTimer, src, i)))
  }

  /** handle_hello_message, behind the decoder. */
  function Receive(nd: Nd, i: nat, src: Addr, h: Hello, now: int): Nd
    requires i < |nd.ifs|
  {
    if src == nd.ifs[i].address then nd else UpdateInfo(nd, i, src, h, now)
  }

  /** delete_one_hop_entry */
  function DeleteEntry(nd: Nd, i: nat, a: Addr): Nd
    requires i < |nd.ifs|
  {
    var f := nd.ifs[i];
    var k := Find(f.table, a);
    if k == |f.table| then nd
    else nd.(ifs := nd.ifs[i := f.(table := f.table[..k] + f.table[k + 1..])])
  }

  /** The hello of an interface: all local addresses, and its own neighbours. */
  function HelloOf(nd: Nd, i: nat): Hello
    requires i < |nd.ifs|
  {
    var f := nd.ifs[i];
    Hello(seq(|nd.ifs|, k requires 0 <= k < |nd.ifs| => nd.ifs[k].address),
          seq(|f.table|, k requires 0 <= k < |f.table| => Listing(f.table[k].ip, f.table[k].status)), LIVE_TIME)
  }

  /** send_hello_message */
  function SendHello(nd: Nd, i: nat, now: int): Nd
    requires i < |nd.ifs|
  {
    var nd1 := nd.(sent := nd.sent + [(i, HelloOf(nd, i))]);
    if nd.ifs[i].interval == 0 then nd1
    else nd1.(tq := SetTimer(nd1.tq, now, nd.ifs[i].interval, Job(HelloTimer, 0, i)))
  }

  function Handle(nd: Nd, j: Job, now: int): Nd
    requires j.iface < |nd.ifs|
  {
    match j.kind
    case HelloTimer => SendHello(nd, j.iface, now)
    case EntryTimer => DeleteEntry(nd, j.iface, j.data)
  }

  /** Every queued timer belongs to an interface. */
  ghost predicate JobsOk(nd: Nd) {
    forall k :: 0 <= k < |nd.tq.list| ==> nd.tq.list[k].what.iface < |nd.ifs|
  }

  /** The handler leaves the queue alone or puts one later timer into it. */
  lemma HandleQueue(nd: Nd, j: Job, now: int)
    requires j.iface < |nd.ifs|
    ensures var nd' := Handle(nd, j, now);
            |nd'.ifs| == |nd.ifs|
            && (nd'.tq.list == nd.tq.list
                || (j.kind.HelloTimer? && 0 < nd.ifs[j.iface].interval
                    && nd'.tq.list == Insert(nd.tq.list, Timer(now + nd.ifs[j.iface].interval,
                                                               Job(HelloTimer, 0, j.iface)))))
  {
    hide Insert;
  }

  /** One turn of the loop of scheduleTimer: run the head's handler, then erase the head. */
  function FireHead(nd: Nd, now: int): (nd': Nd)
    requires JobsOk(nd) && nd.tq.list != [] && nd.tq.list[0].timeout <= now
    ensures JobsOk(nd') && CountDue(nd'.tq.list, now) < CountDue(nd.tq.list, now)
  {
    var nd1 := Handle(nd, nd.tq.list[0].what, now);
    HeadStays(nd, now);
    nd1.(tq := nd1.tq.(list := nd1.tq.list[1..]))
  }

  lemma HeadStays(nd: Nd, now: int)
    requires JobsOk(nd) && nd.tq.list != [] && nd.tq.list[0].timeout <= now
    ensures var q, nd' := nd.tq.list, Handle(nd, nd.tq.list[0].what, now);
            && |nd'.ifs| == |nd.ifs| && JobsOk(nd') && nd'.tq.list != [] && nd'.tq.list[0] == q[0]
            && CountDue(nd'.tq.list[1..], now) == CountDue(q[1..], now) < CountDue(q, now)
  {
    var q := nd.tq.list;
    var j := q[0].what;
    HandleQueue(nd, j, now);
    var t := Timer(now + nd.ifs[j.iface].interval, Job(HelloTimer, 0, j.iface));
    if 0 < nd.ifs[j.iface].interval {
      InsertBehindHead(q, t);
      CountDueInsert(q[1..], t, now);
      InsertMembers(q, t);
    }
    hide Insert, Handle;
  }

  lemma InsertMembers(q: seq<Timer<Job>>, t: Timer<Job>)
    ensures forall x :: x in Insert(q, t) <==> x in q || x == t
  {
  }

  function ScheduleTimer(nd: Nd, now: int): Nd
    requires JobsOk(nd)
    decreases CountDue(nd.tq.list, now)
  {
    if nd.tq.list == [] || now < nd.tq.list[0].timeout then nd.(tq := Rearm(nd.tq, now))
    else ScheduleTimer(FireHead(nd, now), now)
  }

  /** start_discovery, from interface i on. */
  function Start(nd: Nd, i: nat, now: int): Nd
    requires i <= |nd.ifs|
    decreases |nd.ifs| - i
  {
    if i == |nd.ifs| then nd else Start(SendHello(nd, i, now), i + 1, now)
  }
}
