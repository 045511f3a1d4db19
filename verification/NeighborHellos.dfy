/** The sending side of neighbour discovery: hellos never stop, and three of them make a link symmetric. */
module NeighborHellos {
  import opened Base
  import opened Timers
  import opened Neighbors
  import opened NeighborRuns

  // ---- hellos never stop ----

  function HelloTimerOf(i: nat): Job -> bool {
    (j: Job) => j.kind.HelloTimer? && j.iface == i
  }

  /** One HELLO timer for every interface that sends at intervals from..., none for others. */
  ghost predicate HellosFrom(nd: Nd, n: nat) {
    forall i: nat {:trigger HelloTimerOf(i)} :: i < |nd.ifs| ==>
      Count(nd.tq.list, HelloTimerOf(i)) == if i < n && nd.ifs[i].interval > 0 then 1 else 0
  }

  /** The interfaces are the same but for their tables. */
  ghost predicate SameIfs(nd: Nd, nd': Nd) {
    |nd'.ifs| == |nd.ifs| && forall i :: 0 <= i < |nd.ifs| ==> nd'.ifs[i] == nd.ifs[i].(table := nd'.ifs[i].table)
  }

  lemma RemoveKeepsHellos(q: seq<Timer<Job>>, p: Job -> bool, i: nat)
    requires forall j :: p(j) ==> j.kind.EntryTimer?
    ensures Count(RemoveFirst(q, p), HelloTimerOf(i)) == Count(q, HelloTimerOf(i))
  {
    hide First;
    var k := First(q, p);
    if k < |q| {
      CountRemoveAt(q, k, HelloTimerOf(i));
    }
  }

  lemma ReceiveQueue(nd: Nd, i: nat, src: Addr, h: Hello, now: int)
    requires i < |nd.ifs| && src != nd.ifs[i].address
    ensures var nd', p := Receive(nd, i, src, h, now), EntryJob(nd.ifs, src, nd.ifs[i].name);
            var q := if Find(nd.ifs[i].table, src) < |nd.ifs[i].table| then RemoveFirst(nd.tq.list, p) else nd.tq.list;
            SameIfs(nd, nd') && nd'.tq.list == Insert(q, Timer(now + h.live, Job(EntryTimer, src, i)))
  {
    hide First, Insert, EntryFor;
  }

  lemma ReceiveHellos(nd: Nd, i: nat, src: Addr, h: Hello, now: int, n: nat)
    requires i < |nd.ifs| && HellosFrom(nd, n)
    ensures HellosFrom(Receive(nd, i, src, h, now), n)
  {
    if src != nd.ifs[i].address {
      hide Insert, RemoveFirst, Receive;
      ReceiveQueue(nd, i, src, h, now);
      var q, p := nd.tq.list, EntryJob(nd.ifs, src, nd.ifs[i].name);
      var t := Timer(now + h.live, Job(EntryTimer, src, i));
      forall k: nat ensures Count(Insert(q, t), HelloTimerOf(k)) == Count(q, HelloTimerOf(k))
                            && Count(Insert(RemoveFirst(q, p), t), HelloTimerOf(k)) == Count(q, HelloTimerOf(k))
      {
        RemoveKeepsHellos(q, p, k);
        CountInsert(q, t, HelloTimerOf(k));
        CountInsert(RemoveFirst(q, p), t, HelloTimerOf(k));
      }
    }
  }

  /** A hello lists all local addresses and the neighbours as they are; the next one is due an interval later. */
  lemma {:induction false} HelloSent(nd: Nd, i: nat, now: int)
    requires i < |nd.ifs|
    ensures var nd', f := SendHello(nd, i, now), nd.ifs[i];
            && |nd'.sent| == |nd.sent| + 1 && nd'.sent[..|nd.sent|] == nd.sent && nd'.ifs == nd.ifs
            && nd'.tq.list == (if f.interval > 0 then Insert(nd.tq.list, Timer(now + f.interval, Job(HelloTimer, 0, i)))
                               else nd.tq.list)
            && var (to, h) := nd'.sent[|nd.sent|];
               && to == i && h.live == 6000 && |h.locals| == |nd.ifs| && |h.nbrs| == |f.table|
               && (forall k :: 0 <= k < |nd.ifs| ==> h.locals[k] == nd.ifs[k].address)
               && (forall k :: 0 <= k < |f.table| ==> h.nbrs[k] == Listing(f.table[k].ip, f.table[k].status))
  {
    hide Insert;
  }

  lemma HandleHellos(nd: Nd, now: int, n: nat)
    requires JobsOk(nd) && nd.tq.list != [] && nd.tq.list[0].timeout <= now && HellosFrom(nd, n) && n == |nd.ifs|
    ensures HellosFrom(FireHead(nd, now), n) && SameIfs(nd, FireHead(nd, now))
  {
    var q, j := nd.tq.list, nd.tq.list[0].what;
    var nd1 := Handle(nd, j, now);
    HeadStays(nd, now);
    HandleIs(nd, j, now);
    var t := Timer(now + nd.ifs[j.iface].interval, Job(HelloTimer, 0, j.iface));
    hide Handle, Insert, JobsOk;
    forall i: nat | i < n
      ensures Count(nd1.tq.list[1..], HelloTimerOf(i)) == if nd.ifs[i].interval > 0 then 1 else 0
    {
      CountInsert(q, t, HelloTimerOf(i));
      HeadCount(q, i);
      HeadCount(nd1.tq.list, i);
      assert Count(q, HelloTimerOf(i)) == if nd.ifs[i].interval > 0 then 1 else 0;
    }
  }

  lemma HandleIs(nd: Nd, j: Job, now: int)
    requires j.iface < |nd.ifs|
    ensures var nd', f := Handle(nd, j, now), nd.ifs[j.iface];
            && SameIfs(nd, nd')
            && nd'.tq.list == if j.kind.HelloTimer? && f.interval > 0
                              then Insert(nd.tq.list, Timer(now + f.interval, Job(HelloTimer, 0, j.iface)))
                              else nd.tq.list
  {
    hide Insert;
  }

  lemma HeadCount(q: seq<Timer<Job>>, i: nat)
    requires q != []
    ensures Count(q, HelloTimerOf(i)) == Count(q[1..], HelloTimerOf(i)) + if HelloTimerOf(i)(q[0].what) then 1 else 0
  {
  }

  lemma {:induction false} ScheduleHellos(nd: Nd, now: int, n: nat)
    requires JobsOk(nd) && HellosFrom(nd, n) && n == |nd.ifs|
    ensures HellosFrom(ScheduleTimer(nd, now), n) && SameIfs(nd, ScheduleTimer(nd, now))
    decreases CountDue(nd.tq.list, now)
  {
    if nd.tq.list != [] && nd.tq.list[0].timeout <= now {
      HandleHellos(nd, now, n);
      hide FireHead;
      ScheduleHellos(FireHead(nd, now), now, n);
    }
  }

  lemma StepHellos(nd: Nd, m: Moment)
    requires JobsOk(nd) && HellosFrom(nd, |nd.ifs|)
    ensures HellosFrom(Step(nd, m), |nd.ifs|) && SameIfs(nd, Step(nd, m))
  {
    hide ScheduleTimer, Receive;
    match m.ev
    case Recv(i, src, h) =>
      if i < |nd.ifs| {
        ReceiveHellos(nd, i, src, h, m.now, |nd.ifs|);
        ReceiveIfs(nd, i, src, h, m.now);
      }
    case Alarm =>
      var nd1 := nd.(tq := nd.tq.(alarm := None));
      assert HellosFrom(nd1, |nd.ifs|);
      ScheduleHellos(nd1, m.now, |nd.ifs|);
  }

  lemma ReceiveIfs(nd: Nd, i: nat, src: Addr, h: Hello, now: int)
    requires i < |nd.ifs|
    ensures SameIfs(nd, Receive(nd, i, src, h, now))
  {
    if src != nd.ifs[i].address {
      ReceiveQueue(nd, i, src, h, now);
    }
    hide UpdateInfo;
  }

  lemma {:induction false} RunHellos(nd: Nd, ledger: Ledger, ms: seq<Moment>, nd': Nd, ledger': Ledger)
    requires HellosFrom(nd, |nd.ifs|) && Run(nd, ledger, ms, nd', ledger')
    ensures HellosFrom(nd', |nd.ifs|) && SameIfs(nd, nd')
    decreases ms
  {
    hide HellosFrom, Step, Note;
    if ms != [] {
      StepHellos(nd, ms[0]);
      RunHellos(Step(nd, ms[0]), Note(ledger, nd, ms[0]), ms[1..], nd', ledger');
    }
  }

  lemma {:induction false} StartedHellos(nd: Nd, i: nat, now: int)
    requires HellosFrom(nd, i) && i <= |nd.ifs|
    ensures var nd' := Start(nd, i, now); nd'.ifs == nd.ifs && HellosFrom(nd', |nd.ifs|)
    decreases |nd.ifs| - i
  {
    if i < |nd.ifs| {
      var nd1 := SendHello(nd, i, now);
      HelloSent(nd, i, now);
      var t := Timer(now + nd.ifs[i].interval, Job(HelloTimer, 0, i));
      hide SendHello, Insert;
      forall k: nat ensures Count(Insert(nd.tq.list, t), HelloTimerOf(k))
                            == Count(nd.tq.list, HelloTimerOf(k)) + if k == i then 1 else 0
      {
        CountInsert(nd.tq.list, t, HelloTimerOf(k));
      }
      StartedHellos(nd1, i + 1, now);
    }
  }

  /** Over every run every interface with an interval has exactly one HELLO timer, and no other has one. */
  lemma {:induction false} HellosNeverStop(nd: Nd, now: int, ms: seq<Moment>, nd': Nd, ledger: Ledger, i: nat)
    requires nd.tq.list == [] && Run(Start(nd, 0, now), map[], ms, nd', ledger) && i < |nd.ifs|
    ensures i < |nd'.ifs| && nd'.ifs[i].interval == nd.ifs[i].interval
    ensures Count(nd'.tq.list, HelloTimerOf(i)) == if nd.ifs[i].interval > 0 then 1 else 0
  {
    hide Start;
    StartedHellos(nd, 0, now);
    RunHellos(Start(nd, 0, now), map[], ms, nd', ledger);
  }

  // ---- the handshake ----

  function StatusOf(nd: Nd, i: nat, a: Addr): u8 {
    if Slot(nd, i, a).Some? then Slot(nd, i, a).value.status else NO_ENTRY
  }

  /** The entry of a sender after its hello: symmetric if the hello lists us as heard first, heard otherwise. */
  lemma StatusAfter(nd: Nd, i: nat, src: Addr, h: Hello, now: int)
    requires i < |nd.ifs| && src != nd.ifs[i].address
    ensures StatusOf(Receive(nd, i, src, h, now), i, src) == if HearsUs(h, nd.ifs[i].address) then SYMMETRIC else HEARD
    ensures SameIfs(nd, Receive(nd, i, src, h, now))
  {
    var f := nd.ifs[i];
    var e := EntryFor(f.address, src, h);
    var k := Find(f.table, src);
    LookupAfterPut(f.table, if k < |f.table| then e.(quality := f.table[k].quality) else e, src);
    ReceiveIfs(nd, i, src, h, now);
    hide EntryFor, SetTimer, RemoveEntryTimer;
    assert e.ip == src && e.status == if HearsUs(h, f.address) then SYMMETRIC else HEARD by {
      EntryIs(f.address, src, h);
    }
  }

  /** Hearing a known neighbour again leaves the quality of its link as it is. */
  lemma QualityKept(nd: Nd, i: nat, src: Addr, h: Hello, now: int)
    requires i < |nd.ifs| && src != nd.ifs[i].address
    ensures var was, e := Slot(nd, i, src), Slot(Receive(nd, i, src, h, now), i, src);
            e.Some? && e.value.quality == if was.Some? then was.value.quality else 0
  {
    var f := nd.ifs[i];
    var e := EntryFor(f.address, src, h);
    var k := Find(f.table, src);
    LookupAfterPut(f.table, if k < |f.table| then e.(quality := f.table[k].quality) else e, src);
    hide TwoHopsOf, SetTimer, RemoveEntryTimer;
  }

  lemma EntryIs(self: Addr, src: Addr, h: Hello)
    ensures var e := EntryFor(self, src, h); e.ip == src && e.status == if HearsUs(h, self) then SYMMETRIC else HEARD
  {
  }

  /** Whom a hello lists. */
  lemma {:induction false} HelloLists(nd: Nd, i: nat, a: Addr)
    requires i < |nd.ifs|
    ensures HearsUs(HelloOf(nd, i), a) <==> StatusOf(nd, i, a) != NO_ENTRY
  {
    var table, nbrs := nd.ifs[i].table, HelloOf(nd, i).nbrs;
    FindUnique(table, a, FirstListing(nbrs, a)) by {
      assert forall k :: 0 <= k < |table| ==> nbrs[k].ip == table[k].ip;
    }
  }

  /**
   Two nodes that do not know each other: the first hello makes its sender heard, the answering hello
   makes the link symmetric at the first node, and the next one makes it symmetric at the second.
   */
  lemma {:induction false} Handshake(a: Nd, i: nat, b: Nd, j: nat, t1: int, t2: int, t3: int)
    requires i < |a.ifs| && j < |b.ifs| && a.ifs[i].address != b.ifs[j].address
    requires Slot(a, i, b.ifs[j].address).None? && Slot(b, j, a.ifs[i].address).None?
    ensures var x, y := a.ifs[i].address, b.ifs[j].address;
            var b1 := Receive(b, j, x, HelloOf(a, i), t1);
            && StatusOf(b1, j, x) == HEARD && j < |b1.ifs|
            && var a1 := Receive(a, i, y, HelloOf(b1, j), t2);
               && StatusOf(a1, i, y) == SYMMETRIC && i < |a1.ifs|
               && StatusOf(Receive(b1, j, x, HelloOf(a1, i), t3), j, x) == SYMMETRIC
  {
    hide Receive, HelloOf, HearsUs, Slot;
    var x, y := a.ifs[i].address, b.ifs[j].address;
    var b1 := Receive(b, j, x, HelloOf(a, i), t1);
    HelloLists(a, i, y);
    StatusAfter(b, j, x, HelloOf(a, i), t1);
    HelloLists(b1, j, x);
    var a1 := Receive(a, i, y, HelloOf(b1, j), t2);
    StatusAfter(a, i, y, HelloOf(b1, j), t2);
    HelloLists(a1, i, y);
    StatusAfter(b1, j, x, HelloOf(a1, i), t3);
  }
}
