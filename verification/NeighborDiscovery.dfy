/** The running neighbour-discovery library; each method does to its state what module Neighbors says. */
module NeighborDiscovery {
  import opened Base
  import opened TimerQueues
  import opened Neighbors
  import Timers

  class Discovery {
    var ifs: seq<Iface>
    const timerQ: TimerQueue<Job>
    var sent: seq<(nat, Hello)>

    ghost function State(): Nd
      reads this, timerQ
    {
      Nd(ifs, timerQ.State(), sent)
    }

    constructor (ifs: seq<Iface>)
      ensures State() == Nd(ifs, Timers.Queue([], None), []) && fresh(timerQ)
    {
      this.ifs, sent := ifs, [];
      timerQ := new TimerQueue();
    }

    method FindEntry(i: nat, a: Addr) returns (index: nat)
      requires i < |ifs|
      ensures index == Find(ifs[i].table, a)
    {
      var table := ifs[i].table;
      index := 0;
      while index != |table| && table[index].ip != a
        invariant 0 <= index <= |table|
        invariant forall j :: 0 <= j < index ==> table[j].ip != a
      {
        index := index + 1;
      }
      FindUnique(table, a, index);
    }

    /** The status the sender of a hello has for this interface, NO_ENTRY if it has none. */
    method HostStatus(nbrs: seq<Listing>, self: Addr) returns (status: u8)
      ensures var k := FirstListing(nbrs, self); status == if k < |nbrs| then nbrs[k].status else NO_ENTRY
    {
      var i := 0;
      while i != |nbrs|
        invariant 0 <= i <= |nbrs|
        invariant forall j :: 0 <= j < i ==> nbrs[j].ip != self
      {
        if nbrs[i].ip == self {
          FirstListingIs(nbrs, self, i);
          return nbrs[i].status;
        }
        i := i + 1;
      }
      FirstListingIs(nbrs, self, i);
      status := NO_ENTRY;
    }

    method TwoHopSet(nbrs: seq<Listing>, self: Addr, src: Addr) returns (twoHops: seq<TwoHop>)
      ensures twoHops == TwoHopsOf(nbrs, self, src)
    {
      twoHops := [];
      var i := 0;
      while i != |nbrs|
        invariant 0 <= i <= |nbrs|
        invariant twoHops == TwoHopsOf(nbrs[..i], self, src)
      {
        assert nbrs[..i + 1][..i] == nbrs[..i];
        if nbrs[i].ip != self {
          twoHops := twoHops + [TwoHop(nbrs[i].ip, src, nbrs[i].status)];
        }
        i := i + 1;
      }
      assert nbrs[..i] == nbrs;
    }

    /** remove_neighbor_entry_timer */
    method RemoveNeighborEntryTimer(dst: Addr, name: string, now: int)
      modifies timerQ
      ensures timerQ.State() == RemoveEntryTimer(old(timerQ.State()), EntryJob(ifs, dst, name), now)
    {
      var iter := timerQ.FindFirst(EntryJob(ifs, dst, name));
      if iter == |timerQ.timerQ| {
        return;
      }
      var now_set := Alike(timerQ.timerQ[0].what, timerQ.timerQ[iter].what);
      if now_set && iter + 1 != |timerQ.timerQ| {
        timerQ.SetRealTimer(now, timerQ.timerQ[iter + 1].timeout - now);
      }
      timerQ.EraseAt(iter);
    }

    /** update_info */
    method UpdateInfo(i: nat, src: Addr, h: Hello, now: int)
      requires i < |ifs|
      modifies this, timerQ
      ensures State() == Neighbors.UpdateInfo(old(State()), i, src, h, now)
    {
      hide TwoHopsOf, Timers.SetTimer, RemoveEntryTimer;
      var f := ifs[i];
      var index := FindEntry(i, src);
      var hostStatus := HostStatus(h.nbrs, f.address);
      var status := if hostStatus == NO_ENTRY then HEARD else SYMMETRIC;
      var twoHops := TwoHopSet(h.nbrs, f.address, src);
      if index == |f.table| {
        var e := OneHop(src, 0, h.locals, twoHops, status, h.live);
        ifs := ifs[i := f.(table := f.table + [e])];
        timerQ.SetTimer(now, h.live, Job(EntryTimer, src, i));
        return;
      }
      var e := f.table[index];
      e := e.(twoHops := twoHops);
      e := e.(locals := h.locals);
      e := e.(live := h.live, status := status);
      RemoveEntryTimerSame(timerQ.State(), ifs, i, f.(table := f.table[index := e]), src, f.name, now);
      ifs := ifs[i := f.(table := f.table[index := e])];
      RemoveNeighborEntryTimer(src, f.name, now);
      timerQ.SetTimer(now, h.live, Job(EntryTimer, src, i));
    }

    /** handle_hello_message, behind the decoder. */
    method HandleHello(i: nat, src: Addr, h: Hello, now: int)
      requires i < |ifs|
      modifies this, timerQ
      ensures State() == Receive(old(State()), i, src, h, now)
    {
      if src == ifs[i].address {
        return;
      }
      UpdateInfo(i, src, h, now);
    }

    /** delete_one_hop_entry */
    method DeleteOneHopEntry(i: nat, a: Addr)
      requires i < |ifs|
      modifies this
      ensures State() == DeleteEntry(old(State()), i, a)
    {
      var index := FindEntry(i, a);
      var table := ifs[i].table;
      if index != |table| {
        ifs := ifs[i := ifs[i].(table := table[..index] + table[index + 1..])];
      }
    }

    /** generate_and_send_hello_message, up to the byte buffer. */
    method GenerateHello(i: nat) returns (h: Hello)
      requires i < |ifs|
      ensures h == HelloOf(State(), i)
    {
      var locals, nbrs := [], [];
      var k := 0;
      while k != |ifs|
        invariant 0 <= k <= |ifs|
        invariant |locals| == k && forall j :: 0 <= j < k ==> locals[j] == ifs[j].address
      {
        locals := locals + [ifs[k].address];
        k := k + 1;
      }
      var table := ifs[i].table;
      k := 0;
      while k != |table|
        invariant 0 <= k <= |table|
        invariant |nbrs| == k && forall j :: 0 <= j < k ==> nbrs[j] == Listing(table[j].ip, table[j].status)
      {
        nbrs := nbrs + [Listing(table[k].ip, table[k].status)];
        k := k + 1;
      }
      h := Hello(locals, nbrs, LIVE_TIME);
    }

    /** send_hello_message */
    method SendHelloMessage(i: nat, now: int)
      requires i < |ifs|
      modifies this, timerQ
      ensures State() == SendHello(old(State()), i, now)
    {
      var h := GenerateHello(i);
      sent := sent + [(i, h)];
      if ifs[i].interval != 0 {
        timerQ.SetTimer(now, ifs[i].interval, Job(HelloTimer, 0, i));
      }
    }

    method StartDiscovery(now: int)
      modifies this, timerQ
      ensures State() == Start(old(State()), 0, now)
    {
      hide SendHello;
      var i := 0;
      while i != |ifs|
        invariant 0 <= i <= |ifs|
        invariant Start(State(), i, now) == Start(old(State()), 0, now)
        decreases |ifs| - i
      {
        SendKeepsIfs(State(), i, now);
        SendHelloMessage(i, now);
        i := i + 1;
      }
    }

    method HandleTimer(j: Job, now: int)
      requires j.iface < |ifs|
      modifies this, timerQ
      ensures State() == Handle(old(State()), j, now)
    {
      match j.kind {
        case HelloTimer => SendHelloMessage(j.iface, now);
        case EntryTimer => DeleteOneHopEntry(j.iface, j.data);
      }
    }

    method ScheduleTimer(now: int)
      requires JobsOk(State())
      modifies this, timerQ
      ensures State() == Neighbors.ScheduleTimer(old(State()), now)
    {
      hide Handle;
      while timerQ.timerQ != [] && timerQ.timerQ[0].timeout <= now
        invariant JobsOk(State())
        invariant Neighbors.ScheduleTimer(State(), now) == Neighbors.ScheduleTimer(old(State()), now)
        decreases Timers.CountDue(timerQ.timerQ, now)
      {
        HeadStays(State(), now);
        ghost var next := FireHead(State(), now);
        HandleTimer(timerQ.timerQ[0].what, now);
        timerQ.EraseHead();
        assert State() == next;
      }
      timerQ.Rearm(now);
    }
  }

  /** Which timer goes depends on the names of the interfaces only. */
  lemma RemoveEntryTimerSame(tq: Timers.Queue<Job>, ifs: seq<Iface>, i: nat, f: Iface, a: Addr, name: string, now: int)
    requires i < |ifs| && f.name == ifs[i].name
    ensures RemoveEntryTimer(tq, EntryJob(ifs[i := f], a, name), now)
         == RemoveEntryTimer(tq, EntryJob(ifs, a, name), now)
  {
    var p, p' := EntryJob(ifs, a, name), EntryJob(ifs[i := f], a, name);
    assert forall j :: p(j) <==> p'(j);
    Timers.FirstUnique(tq.list, p, Timers.First(tq.list, p'));
  }

  lemma SendKeepsIfs(nd: Nd, i: nat, now: int)
    requires i < |nd.ifs|
    ensures SendHello(nd, i, now).ifs == nd.ifs
  {
  }
}
