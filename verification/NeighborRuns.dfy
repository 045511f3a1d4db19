/** Whole runs of neighbour discovery: the table is "the last unexpired hello of each sender". */
module NeighborRuns {
  import opened Base
  import opened Timers
  import opened Neighbors

  // ---- the simple form ----

  /** A hello as a ledger would note it. */
  datatype Heard = Heard(at: int, hello: Hello)

  /** The last hello of every sender, by interface. */
  type Ledger = map<(nat, Addr), Heard>

  function Expiry(h: Heard): int {
    h.at + h.hello.live
  }

  datatype Event = Recv(iface: nat, src: Addr, hello: Hello) | Alarm

  datatype Moment = Moment(now: int, ev: Event)

  function Note(ledger: Ledger, nd: Nd, m: Moment): Ledger {
    match m.ev
    case Recv(i, src, h) =>
      if i < |nd.ifs| && src != nd.ifs[i].address then ledger[(i, src) := Heard(m.now, h)] else ledger
    case Alarm => ledger
  }

  function Step(nd: Nd, m: Moment): Nd
    requires JobsOk(nd)
  {
    match m.ev
    case Recv(i, src, h) => if i < |nd.ifs| then Receive(nd, i, src, h, m.now) else nd
    case Alarm => ScheduleTimer(nd.(tq := nd.tq.(alarm := None)), m.now)
  }

  // ---- the invariant ----

  /** What a table answers for a, None if it has no entry. */
  function Lookup(table: seq<OneHop>, a: Addr): Option<OneHop> {
    if Find(table, a) < |table| then Some(table[Find(table, a)]) else None
  }

  function Slot(nd: Nd, i: nat, a: Addr): Option<OneHop> {
    if i < |nd.ifs| then Lookup(nd.ifs[i].table, a) else None
  }

  ghost predicate DistinctIps(table: seq<OneHop>) {
    forall j, k :: 0 <= j < k < |table| ==> table[j].ip != table[k].ip
  }

  function EntryTimerOf(i: nat, a: Addr): Job -> bool {
    (j: Job) => j == Job(EntryTimer, a, i)
  }

  ghost predicate TablesDistinct(nd: Nd) {
    forall i :: 0 <= i < |nd.ifs| ==> DistinctIps(nd.ifs[i].table)
  }

  /** An entry is what its sender's last hello says; what is not in the table expired by t0. */
  ghost predicate SlotOk(nd: Nd, ledger: Ledger, t0: int, i: nat, a: Addr)
    requires i < |nd.ifs|
  {
    match Slot(nd, i, a)
    case Some(e) => (i, a) in ledger && e == EntryFor(nd.ifs[i].address, a, ledger[(i, a)].hello)
    case None => (i, a) in ledger ==> Expiry(ledger[(i, a)]) <= t0
  }

  ghost predicate SlotsOk(nd: Nd, ledger: Ledger, t0: int) {
    forall i: nat, a: Addr :: i < |nd.ifs| ==> SlotOk(nd, ledger, t0, i, a)
  }

  /** Entries and their timers are in bijection. */
  ghost predicate Paired(nd: Nd) {
    forall i: nat, a: Addr :: i < |nd.ifs| ==>
      Count(nd.tq.list, EntryTimerOf(i, a)) == if Slot(nd, i, a).Some? then 1 else 0
  }

  ghost predicate TimerOk(t: Timer<Job>, ledger: Ledger) {
    t.what.kind.EntryTimer? ==>
      (t.what.iface, t.what.data) in ledger && t.timeout == Expiry(ledger[(t.what.iface, t.what.data)])
  }

  ghost predicate TimersOk(nd: Nd, ledger: Ledger) {
    forall t :: t in nd.tq.list ==> TimerOk(t, ledger)
  }

  ghost predicate Inv(nd: Nd, ledger: Ledger, t0: int) {
    && DistinctNames(nd.ifs) && JobsOk(nd) && Sorted(nd.tq.list)
    && TablesDistinct(nd) && SlotsOk(nd, ledger, t0) && Paired(nd) && TimersOk(nd, ledger)
  }

  // ---- single slots ----

  /** Overwriting the entry of e.ip, or appending e when there is none. */
  lemma LookupAfterPut(table: seq<OneHop>, e: OneHop, a: Addr)
    ensures var k := Find(table, e.ip);
            var table' := if k < |table| then table[k := e] else table + [e];
            Lookup(table', a) == if a == e.ip then Some(e) else Lookup(table, a)
  {
    var k, x := Find(table, e.ip), Find(table, a);
    var table' := if k < |table| then table[k := e] else table + [e];
    FindUnique(table', a, if x == |table| && a != e.ip then |table'| else x);
  }

  lemma LookupAfterErase(table: seq<OneHop>, k: nat, a: Addr)
    requires DistinctIps(table) && k < |table|
    ensures var table' := table[..k] + table[k + 1..];
            DistinctIps(table') && Lookup(table', a) == if a == table[k].ip then None else Lookup(table, a)
  {
    var table' := table[..k] + table[k + 1..];
    assert forall j :: 0 <= j < |table'| ==> table'[j] == table[if j < k then j else j + 1];
    var x := Find(table, a);
    FindUnique(table', a, if a == table[k].ip || x == |table| then |table'| else if x < k then x else x - 1);
  }

  lemma SlotOfOther(nd: Nd, nd': Nd, i: nat)
    requires |nd'.ifs| == |nd.ifs| && forall j :: 0 <= j < |nd.ifs| && j != i ==> nd'.ifs[j] == nd.ifs[j]
    ensures forall j: nat, a: Addr {:trigger Slot(nd', j, a)} :: j != i ==> Slot(nd', j, a) == Slot(nd, j, a)
  {
  }

  // ---- the queue ----

  lemma RemoveOnly(q: seq<Timer<Job>>, p: Job -> bool, p': Job -> bool)
    requires First(q, p) < |q|
    ensures Count(RemoveFirst(q, p), p') == Count(q, p') - if p'(q[First(q, p)].what) then 1 else 0
    ensures forall t :: t in RemoveFirst(q, p) ==> t in q
  {
    hide First, Count;
    CountRemoveAt(q, First(q, p), p');
  }

  /** Names are distinct, so the name test singles out the interface. */
  lemma EntryJobIs(nd: Nd, i: nat, a: Addr, j: Job)
    requires i < |nd.ifs| && DistinctNames(nd.ifs)
    ensures EntryJob(nd.ifs, a, nd.ifs[i].name)(j) <==> EntryTimerOf(i, a)(j)
  {
  }

  lemma {:induction false} CountSame(q: seq<Timer<Job>>, p: Job -> bool, p': Job -> bool)
    requires forall j :: p(j) <==> p'(j)
    ensures Count(q, p) == Count(q, p')
  {
    if q != [] {
      CountSame(q[1..], p, p');
    }
  }

  lemma CountOne(q: seq<Timer<Job>>, p: Job -> bool)
    requires Count(q, p) == 1
    ensures First(q, p) < |q|
    ensures forall t :: t in RemoveFirst(q, p) ==> !p(t.what)
  {
    CountZero(q, p);
    CountRemoveFirst(q, p);
    CountZero(RemoveFirst(q, p), p);
  }

  // ---- a hello arrives ----

  lemma UpdateInfoTables(nd: Nd, i: nat, src: Addr, h: Hello, now: int, ledger: Ledger, t0: int)
    requires i < |nd.ifs| && Inv(nd, ledger, t0)
    ensures var nd' := UpdateInfo(nd, i, src, h, now);
            && |nd'.ifs| == |nd.ifs| && TablesDistinct(nd') && DistinctNames(nd'.ifs)
            && (forall j :: 0 <= j < |nd.ifs| ==> nd'.ifs[j].address == nd.ifs[j].address)
            && Slot(nd', i, src) == Some(EntryFor(nd.ifs[i].address, src, h))
            && forall j: nat, a: Addr :: j < |nd.ifs| && (j, a) != (i, src) ==> Slot(nd', j, a) == Slot(nd, j, a)
  {
    var nd' := UpdateInfo(nd, i, src, h, now);
    var f := nd.ifs[i];
    var k := Find(f.table, src);
    var e := EntryFor(f.address, src, h);
    assert SlotOk(nd, ledger, t0, i, src);
    assert k < |f.table| ==> f.table[k].quality == 0;
    hide EntryFor, SlotOk, SlotsOk, Paired, TimersOk, SetTimer, RemoveEntryTimer, Find, Lookup;
    SlotOfOther(nd, nd', i);
    assert nd'.ifs[i].table == if k < |f.table| then f.table[k := e] else f.table + [e];
    forall a ensures Slot(nd', i, a) == if a == src then Some(e) else Slot(nd, i, a) {
      LookupAfterPut(f.table, e, a);
    }
  }

  lemma UpdateInfoList(nd: Nd, i: nat, src: Addr, h: Hello, now: int)
    requires i < |nd.ifs|
    ensures var q, f := nd.tq.list, nd.ifs[i];
            UpdateInfo(nd, i, src, h, now).tq.list
            == Insert(if Slot(nd, i, src).Some? then RemoveFirst(q, EntryJob(nd.ifs, src, f.name)) else q,
                      Timer(now + h.live, Job(EntryTimer, src, i)))
  {
    hide First, Insert, EntryFor;
  }

  /** The queue after a hello: the sender's old timer is gone, the new one is in. */
  lemma {:induction false} UpdateInfoQueue(nd: Nd, i: nat, src: Addr, h: Hello, now: int, ledger: Ledger, t0: int)
    requires i < |nd.ifs| && Inv(nd, ledger, t0)
    ensures var q, q' := nd.tq.list, UpdateInfo(nd, i, src, h, now).tq.list;
            && Sorted(q')
            && (forall t :: t in q' ==> t == Timer(now + h.live, Job(EntryTimer, src, i))
                                         || (t in q && t.what != Job(EntryTimer, src, i)))
            && forall j: nat, a: Addr :: j < |nd.ifs| ==>
                 Count(q', EntryTimerOf(j, a)) == if (j, a) == (i, src) then 1 else Count(q, EntryTimerOf(j, a))
  {
    hide Insert, RemoveFirst, SlotsOk, UpdateInfo, Sorted;
    var q, q' := nd.tq.list, UpdateInfo(nd, i, src, h, now).tq.list;
    var f := nd.ifs[i];
    var p, own := EntryJob(nd.ifs, src, f.name), EntryTimerOf(i, src);
    var t := Timer(now + h.live, Job(EntryTimer, src, i));
    var mid := if Slot(nd, i, src).Some? then RemoveFirst(q, p) else q;
    UpdateInfoList(nd, i, src, h, now);
    assert Count(q, own) == if Slot(nd, i, src).Some? then 1 else 0;
    forall j ensures p(j) <==> own(j) {
      EntryJobIs(nd, i, src, j);
    }
    hide Slot;
    CountSame(q, p, own);
    RemoveSorted(q, p);
    InsertSorted(mid, t);
    InsertMembers(mid, t);
    MidQueue(q, p, own, Count(q, own) == 1, mid);
    forall j: nat, a: Addr | j < |nd.ifs|
      ensures Count(q', EntryTimerOf(j, a)) == if (j, a) == (i, src) then 1 else Count(q, EntryTimerOf(j, a))
    {
      CountInsert(mid, t, EntryTimerOf(j, a));
      if Count(q, own) == 1 {
        CountOne(q, p);
        RemoveOnly(q, p, EntryTimerOf(j, a));
      }
    }
  }

  lemma MidQueue(q: seq<Timer<Job>>, p: Job -> bool, own: Job -> bool, there: bool, mid: seq<Timer<Job>>)
    requires forall j :: p(j) <==> own(j)
    requires Count(q, p) == if there then 1 else 0
    requires mid == if there then RemoveFirst(q, p) else q
    ensures forall t :: t in mid ==> t in q && !own(t.what)
  {
    if there {
      CountOne(q, p);
      RemoveOnly(q, p, p);
    } else {
      CountZero(q, p);
    }
  }

  lemma {:induction false} ReceiveKeeps(nd: Nd, i: nat, src: Addr, h: Hello, now: int, ledger: Ledger, t0: int)
    requires i < |nd.ifs| && Inv(nd, ledger, t0)
    ensures Inv(Receive(nd, i, src, h, now), Note(ledger, nd, Moment(now, Recv(i, src, h))), t0)
  {
    if src != nd.ifs[i].address {
      hide UpdateInfo, Sorted, EntryFor, Slot, SlotOk, DistinctIps, DistinctNames, Count;
      var nd' := UpdateInfo(nd, i, src, h, now);
      var ledger' := ledger[(i, src) := Heard(now, h)];
      UpdateInfoTables(nd, i, src, h, now, ledger, t0);
      UpdateInfoQueue(nd, i, src, h, now, ledger, t0);
      UpdateInfoSlotsOk(nd, i, src, h, nd', now, ledger, t0);
      UpdateInfoTimersOk(nd, i, src, h, nd', now, ledger);
    }
  }

  lemma UpdateInfoTimersOk(nd: Nd, i: nat, src: Addr, h: Hello, nd': Nd, now: int, ledger: Ledger)
    requires i < |nd.ifs| == |nd'.ifs| && TimersOk(nd, ledger) && JobsOk(nd)
    requires forall t :: t in nd'.tq.list ==>
               || t == Timer(now + h.live, Job(EntryTimer, src, i))
               || (t in nd.tq.list && t.what != Job(EntryTimer, src, i))
    ensures TimersOk(nd', ledger[(i, src) := Heard(now, h)]) && JobsOk(nd')
  {
  }

  lemma UpdateInfoSlotsOk(nd: Nd, i: nat, src: Addr, h: Hello, nd': Nd, now: int, ledger: Ledger, t0: int)
    requires i < |nd.ifs| == |nd'.ifs| && SlotsOk(nd, ledger, t0)
    requires forall j :: 0 <= j < |nd.ifs| ==> nd'.ifs[j].address == nd.ifs[j].address
    requires Slot(nd', i, src) == Some(EntryFor(nd.ifs[i].address, src, h))
    requires forall j: nat, a: Addr :: j < |nd.ifs| && (j, a) != (i, src) ==> Slot(nd', j, a) == Slot(nd, j, a)
    ensures SlotsOk(nd', ledger[(i, src) := Heard(now, h)], t0)
  {
    hide Slot, EntryFor;
    var ledger' := ledger[(i, src) := Heard(now, h)];
    forall j: nat, a: Addr | j < |nd.ifs| ensures SlotOk(nd', ledger', t0, j, a) {
      assert SlotOk(nd, ledger, t0, j, a);
    }
  }

  // ---- a timer fires ----

  lemma DeleteEntrySlots(nd: Nd, i: nat, a: Addr)
    requires i < |nd.ifs| && TablesDistinct(nd)
    ensures var nd' := DeleteEntry(nd, i, a);
            && |nd'.ifs| == |nd.ifs| && TablesDistinct(nd') && nd'.tq == nd.tq
            && (forall j :: 0 <= j < |nd.ifs| ==>
                  nd'.ifs[j].address == nd.ifs[j].address && nd'.ifs[j].name == nd.ifs[j].name)
            && forall j: nat, b: Addr :: j < |nd.ifs| ==>
                 Slot(nd', j, b) == if (j, b) == (i, a) then None else Slot(nd, j, b)
  {
    var nd' := DeleteEntry(nd, i, a);
    var table := nd.ifs[i].table;
    var k := Find(table, a);
    hide Find, Lookup, DistinctIps;
    SlotOfOther(nd, nd', i);
    forall b ensures Slot(nd', i, b) == if b == a then None else Slot(nd, i, b) {
      if k < |table| {
        LookupAfterErase(table, k, b);
      }
    }
    if k < |table| {
      LookupAfterErase(table, k, a);
    }
  }

  lemma {:induction false} FireKeeps(nd: Nd, now: int, ledger: Ledger, t0: int)
    requires Inv(nd, ledger, t0) && t0 <= now && nd.tq.list != [] && nd.tq.list[0].timeout <= now
    ensures Inv(FireHead(nd, now), ledger, now)
  {
    var head := nd.tq.list[0];
    if head.what.kind.EntryTimer? {
      FireEntryKeeps(nd, now, ledger, t0);
    } else {
      FireHelloKeeps(nd, now, ledger, t0);
    }
  }

  lemma FireEntryKeeps(nd: Nd, now: int, ledger: Ledger, t0: int)
    requires Inv(nd, ledger, t0) && t0 <= now && nd.tq.list != [] && nd.tq.list[0].timeout <= now
    requires nd.tq.list[0].what.kind.EntryTimer?
    ensures Inv(FireHead(nd, now), ledger, now)
  {
    var q, nd' := nd.tq.list, FireHead(nd, now);
    var i, a := q[0].what.iface, q[0].what.data;
    assert nd'.tq.list == q[1..] && nd'.ifs == DeleteEntry(nd, i, a).ifs;
    assert TimerOk(q[0], ledger);
    DeleteEntrySlots(nd, i, a);
    hide FireHead, DeleteEntry, DistinctIps, EntryFor;
    SlotOfIfs(nd', DeleteEntry(nd, i, a));
    forall j: nat, b: Addr | j < |nd.ifs| ensures SlotOk(nd', ledger, now, j, b) {
      assert SlotOk(nd, ledger, t0, j, b);
    }
    forall j: nat, b: Addr | j < |nd.ifs|
      ensures Count(nd'.tq.list, EntryTimerOf(j, b)) == if Slot(nd', j, b).Some? then 1 else 0
    {
      assert Count(q, EntryTimerOf(j, b)) == if Slot(nd, j, b).Some? then 1 else 0;
    }
    assert forall t :: t in nd'.tq.list ==> t in q;
  }

  lemma SlotOfIfs(nd: Nd, nd': Nd)
    requires nd.ifs == nd'.ifs
    ensures forall i: nat, a: Addr :: Slot(nd, i, a) == Slot(nd', i, a)
  {
  }

  lemma FireHelloKeeps(nd: Nd, now: int, ledger: Ledger, t0: int)
    requires Inv(nd, ledger, t0) && t0 <= now && nd.tq.list != [] && nd.tq.list[0].timeout <= now
    requires nd.tq.list[0].what.kind.HelloTimer?
    ensures Inv(FireHead(nd, now), ledger, now)
  {
    var q, nd' := nd.tq.list, FireHead(nd, now);
    FireHelloQueue(nd, now);
    hide FireHead, DistinctIps, EntryFor, Count, Sorted;
    SlotOfIfs(nd, nd');
    forall j: nat, b: Addr | j < |nd.ifs| ensures SlotOk(nd', ledger, now, j, b) {
      assert SlotOk(nd, ledger, t0, j, b);
    }
    forall x | x in nd'.tq.list ensures TimerOk(x, ledger) {
      if x in q {
        assert TimerOk(x, ledger);
      }
    }
  }

  lemma FireHelloQueue(nd: Nd, now: int)
    requires JobsOk(nd) && Sorted(nd.tq.list) && nd.tq.list != [] && nd.tq.list[0].timeout <= now
    requires nd.tq.list[0].what.kind.HelloTimer?
    ensures var nd' := FireHead(nd, now);
            && nd'.ifs == nd.ifs && JobsOk(nd') && Sorted(nd'.tq.list)
            && (forall x :: x in nd'.tq.list ==> x in nd.tq.list || x.what.kind.HelloTimer?)
            && forall j: nat, b: Addr :: Count(nd'.tq.list, EntryTimerOf(j, b)) == Count(nd.tq.list, EntryTimerOf(j, b))
  {
    hide FireHead, Insert, Sorted, JobsOk;
    var q, q' := nd.tq.list, FireHead(nd, now).tq.list;
    var i := q[0].what.iface;
    FiredHello(nd, now);
    var t := Timer(now + nd.ifs[i].interval, Job(HelloTimer, 0, i));
    SortedTail(q);
    if q' != q[1..] {
      InsertSorted(q[1..], t);
      InsertMembers(q[1..], t);
    }
    forall j: nat, b: Addr ensures Count(q', EntryTimerOf(j, b)) == Count(q, EntryTimerOf(j, b)) {
      CountInsert(q[1..], t, EntryTimerOf(j, b));
    }
  }

  lemma SortedTail(q: seq<Timer<Job>>)
    requires Sorted(q) && q != []
    ensures Sorted(q[1..])
  {
  }

  lemma FiredHello(nd: Nd, now: int)
    requires JobsOk(nd) && nd.tq.list != [] && nd.tq.list[0].timeout <= now && nd.tq.list[0].what.kind.HelloTimer?
    ensures var q, nd', i := nd.tq.list, FireHead(nd, now), nd.tq.list[0].what.iface;
            && i < |nd.ifs| && nd'.ifs == nd.ifs && JobsOk(nd')
            && (nd'.tq.list == q[1..]
                || nd'.tq.list == Insert(q[1..], Timer(now + nd.ifs[i].interval, Job(HelloTimer, 0, i))))
  {
    hide Insert;
    var q, i := nd.tq.list, nd.tq.list[0].what.iface;
    HandleQueue(nd, q[0].what, now);
    if 0 < nd.ifs[i].interval {
      InsertBehindHead(q, Timer(now + nd.ifs[i].interval, Job(HelloTimer, 0, i)));
    }
  }

  /** After scheduleTimer nothing is due, and what is not in a table expired by now. */
  lemma {:induction false} ScheduleKeeps(nd: Nd, now: int, ledger: Ledger, t0: int)
    requires Inv(nd, ledger, t0) && t0 <= now
    ensures Inv(ScheduleTimer(nd, now), ledger, now) && NoneDue(ScheduleTimer(nd, now).tq.list, now)
    decreases CountDue(nd.tq.list, now)
  {
    if nd.tq.list == [] || now < nd.tq.list[0].timeout {
      QueueOnly(nd, ScheduleTimer(nd, now), ledger, t0, now);
    } else {
      FireKeeps(nd, now, ledger, t0);
      hide Inv, FireHead;
      ScheduleKeeps(FireHead(nd, now), now, ledger, now);
    }
  }

  /** The invariant does not look at the alarm, and holds for any later t0. */
  lemma QueueOnly(nd: Nd, nd': Nd, ledger: Ledger, t0: int, t1: int)
    requires Inv(nd, ledger, t0) && t0 <= t1
    requires nd'.ifs == nd.ifs && nd'.tq.list == nd.tq.list
    ensures Inv(nd', ledger, t1)
  {
    hide DistinctIps, EntryFor;
    SlotOfIfs(nd, nd');
    forall j: nat, b: Addr | j < |nd.ifs| ensures SlotOk(nd', ledger, t1, j, b) {
      assert SlotOk(nd, ledger, t0, j, b);
    }
  }

  // ---- runs ----

  /** Before start_discovery: no interface knows a neighbour. */
  ghost predicate Idle(nd: Nd) {
    DistinctNames(nd.ifs) && nd.tq.list == [] && forall i :: 0 <= i < |nd.ifs| ==> nd.ifs[i].table == []
  }

  ghost predicate HelloTimersOnly(nd: Nd) {
    && DistinctNames(nd.ifs) && JobsOk(nd) && Sorted(nd.tq.list)
    && (forall i :: 0 <= i < |nd.ifs| ==> nd.ifs[i].table == [])
    && forall t :: t in nd.tq.list ==> t.what.kind.HelloTimer?
  }

  lemma {:induction false} StartHellos(nd: Nd, i: nat, now: int)
    requires HelloTimersOnly(nd) && i <= |nd.ifs|
    ensures HelloTimersOnly(Start(nd, i, now))
    decreases |nd.ifs| - i
  {
    if i < |nd.ifs| {
      var nd1 := SendHello(nd, i, now);
      var t := Timer(now + nd.ifs[i].interval, Job(HelloTimer, 0, i));
      assert nd1.ifs == nd.ifs && (nd1.tq.list == nd.tq.list || nd1.tq.list == Insert(nd.tq.list, t));
      InsertSorted(nd.tq.list, t);
      InsertMembers(nd.tq.list, t);
      hide SendHello, Insert, Sorted;
      assert JobsOk(nd1);
      StartHellos(nd1, i + 1, now);
    }
  }

  lemma {:induction false} NoEntryTimer(q: seq<Timer<Job>>, i: nat, a: Addr)
    requires forall t :: t in q ==> t.what.kind.HelloTimer?
    ensures Count(q, EntryTimerOf(i, a)) == 0
  {
    if q != [] {
      assert q[0] in q;
      NoEntryTimer(q[1..], i, a);
    }
  }

  lemma StartInv(nd: Nd, now: int)
    requires Idle(nd)
    ensures Inv(Start(nd, 0, now), map[], now)
  {
    StartHellos(nd, 0, now);
    var nd' := Start(nd, 0, now);
    forall i: nat, a: Addr | i < |nd'.ifs| ensures Count(nd'.tq.list, EntryTimerOf(i, a)) == 0 {
      NoEntryTimer(nd'.tq.list, i, a);
    }
  }

  /** The clock does not run backwards over ms. */
  ghost predicate Clock(now: int, ms: seq<Moment>)
    decreases ms
  {
    ms != [] ==> now <= ms[0].now && Clock(ms[0].now, ms[1..])
  }

  /** nd' and ledger' are what ms makes of nd and ledger. */
  ghost predicate Run(nd: Nd, ledger: Ledger, ms: seq<Moment>, nd': Nd, ledger': Ledger)
    decreases ms
  {
    if ms == [] then nd' == nd && ledger' == ledger
    else JobsOk(nd) && Run(Step(nd, ms[0]), Note(ledger, nd, ms[0]), ms[1..], nd', ledger')
  }

  function Last(now: int, ms: seq<Moment>): int {
    if ms == [] then now else ms[|ms| - 1].now
  }

  lemma StepKeeps(nd: Nd, ledger: Ledger, m: Moment, t0: int)
    requires Inv(nd, ledger, t0) && t0 <= m.now
    ensures Inv(Step(nd, m), Note(ledger, nd, m), m.now)
    ensures m.ev.Alarm? ==> NoneDue(Step(nd, m).tq.list, m.now)
  {
    match m.ev
    case Recv(i, src, h) =>
      if i < |nd.ifs| {
        ReceiveKeeps(nd, i, src, h, m.now, ledger, t0);
      }
      QueueOnly(Step(nd, m), Step(nd, m), Note(ledger, nd, m), t0, m.now);
    case Alarm =>
      var nd1 := nd.(tq := nd.tq.(alarm := None));
      QueueOnly(nd, nd1, ledger, t0, t0);
      ScheduleKeeps(nd1, m.now, ledger, t0);
  }

  lemma {:induction false} RunKeeps(nd: Nd, ledger: Ledger, ms: seq<Moment>, nd': Nd, ledger': Ledger, now: int)
    requires Inv(nd, ledger, now) && Clock(now, ms) && Run(nd, ledger, ms, nd', ledger')
    ensures Inv(nd', ledger', Last(now, ms))
    ensures ms != [] && ms[|ms| - 1].ev.Alarm? ==> NoneDue(nd'.tq.list, Last(now, ms))
    decreases ms
  {
    hide Inv, Step, Note, NoneDue;
    if ms != [] {
      StepKeeps(nd, ledger, ms[0], now);
      RunKeeps(Step(nd, ms[0]), Note(ledger, nd, ms[0]), ms[1..], nd', ledger', ms[0].now);
    }
  }

  /** Over every run addresses are distinct in each table, and in bijection with the queued ENTRY timers. */
  lemma {:induction false} TablePairsTimers(nd: Nd, now: int, ms: seq<Moment>, nd': Nd, ledger: Ledger)
    requires Idle(nd) && Clock(now, ms) && Run(Start(nd, 0, now), map[], ms, nd', ledger)
    ensures forall i :: 0 <= i < |nd'.ifs| ==> DistinctIps(nd'.ifs[i].table)
    ensures forall i: nat, a: Addr :: i < |nd'.ifs| ==>
              Count(nd'.tq.list, EntryTimerOf(i, a)) == if Slot(nd', i, a).Some? then 1 else 0
  {
    StartInv(nd, now);
    RunKeeps(Start(nd, 0, now), map[], ms, nd', ledger, now);
  }

  /**
   Just after scheduleTimer ran at time t the table of every interface holds exactly the senders
   whose last hello is unexpired, each with what that hello said.
   */
  lemma {:induction false} TableIsLastHellos(
    nd: Nd, now: int, ms: seq<Moment>, nd': Nd, ledger: Ledger, i: nat, a: Addr)
    requires Idle(nd) && Clock(now, ms) && Run(Start(nd, 0, now), map[], ms, nd', ledger)
    requires ms != [] && ms[|ms| - 1].ev.Alarm? && i < |nd'.ifs|
    ensures Slot(nd', i, a).Some? <==> (i, a) in ledger && Last(now, ms) < Expiry(ledger[(i, a)])
    ensures Slot(nd', i, a).Some? ==>
              var e, h, self := Slot(nd', i, a).value, ledger[(i, a)].hello, nd'.ifs[i].address;
              && (e.status == SYMMETRIC <==> HearsUs(h, self)) && (e.status == HEARD <==> !HearsUs(h, self))
              && e.twoHops == TwoHopsOf(h.nbrs, self, a) && e.locals == h.locals && e.live == h.live
  {
    StartInv(nd, now);
    RunKeeps(Start(nd, 0, now), map[], ms, nd', ledger, now);
    assert SlotOk(nd', ledger, Last(now, ms), i, a);
    if Slot(nd', i, a).Some? {
      var t := QueuedTimer(nd'.tq.list, i, a);
      assert TimerOk(t, ledger);
    }
  }

  lemma QueuedTimer(q: seq<Timer<Job>>, i: nat, a: Addr) returns (t: Timer<Job>)
    requires Count(q, EntryTimerOf(i, a)) == 1
    ensures t in q && t.what == Job(EntryTimer, a, i)
  {
    CountZero(q, EntryTimerOf(i, a));
    t := q[First(q, EntryTimerOf(i, a))];
  }

  /** The two-hop set is the hello's list minus this interface, with multiplicities and in order. */
  lemma {:induction false} TwoHopsAre(nbrs: seq<Listing>, self: Addr, src: Addr)
    ensures forall h :: h in TwoHopsOf(nbrs, self, src)
                        <==> h.gateway == src && h.ip != self && Listing(h.ip, h.status) in nbrs
  {
    if nbrs != [] {
      TwoHopsAre(nbrs[..|nbrs| - 1], self, src);
      assert nbrs == nbrs[..|nbrs| - 1] + [nbrs[|nbrs| - 1]];
    }
  }

  // ---- the alarm of this queue ----

  /**
   is_set_now does not compare the address, so removing a neighbour's timer can set the alarm later
   than the head: exactly when another timer of the same type and interface is the head.
   */
  lemma RemoveEntryLateIff(tq: Queue<Job>, p: Job -> bool, now: int)
    requires AlarmOk(tq) && Sorted(tq.list) && NoneDue(tq.list, now) && First(tq.list, p) < |tq.list|
    ensures var q, k := tq.list, First(tq.list, p);
            AlarmOk(RemoveEntryTimer(tq, p, now))
            <==> k == 0 || !Alike(q[0].what, q[k].what) || k + 1 == |q| || q[k + 1].timeout == q[0].timeout
  {
  }
}
