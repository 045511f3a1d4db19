/**
 The on-demand packet queue of the kernel module, as functions on values: packets without a route
 wait in the queue, one route request is sent for each destination, and the answer releases them.
 */
module Ods {
  import opened Base

  const MAX_PACKET_NUMBER := 1000
  const IP_FOUND := 1

  /** id tells packets with equal headers apart; local packets came through the output hook. */
  datatype Packet = Packet(id: nat, src: Addr, dst: Addr, protocol: u8, local: bool)

  datatype Verdict = Drop | Accept

  /** What concerns route requests, oldest first: attempts, answers, and packets that found no room. */
  datatype Act = Request(dst: Addr) | Release(dst: Addr) | EnqueueFail(dst: Addr) | Cleared

  /**
   queue is in arrival order. admitted are the packets that entered the queue, left those that
   were taken out of it, both in order; forwarded and dropped say what became of the packets.
   */
  datatype Kernel = Kernel(queue: seq<Packet>, flag: bool, pid: int, received: seq<Packet>, forwarded: seq<Packet>,
                     dropped: seq<Packet>, admitted: seq<Packet>, left: seq<Packet>, log: seq<Act>)

  const NO_PACKETS := Kernel([], false, -1, [], [], [], [], [], [])

  predicate Pending(q: seq<Packet>, d: Addr) {
    exists i :: 0 <= i < |q| && q[i].dst == d
  }

  /** judge_ip, or no test at all. */
  predicate Matches(p: Packet, d: Option<Addr>) {
    d.None? || p.dst == d.value
  }

  /** Index of the oldest match, or the length of the queue. */
  function Oldest(q: seq<Packet>, d: Option<Addr>): (i: nat)
    ensures i <= |q|
    ensures forall j :: 0 <= j < i ==> !Matches(q[j], d)
    ensures i < |q| ==> Matches(q[i], d)
  {
    if q == [] || Matches(q[0], d) then 0 else 1 + Oldest(q[1..], d)
  }

  lemma OldestIs(q: seq<Packet>, d: Option<Addr>, i: nat)
    requires i <= |q| && (forall j :: 0 <= j < i ==> !Matches(q[j], d)) && (i < |q| ==> Matches(q[i], d))
    ensures i == Oldest(q, d)
  {
  }

  function Enqueue(s: Kernel, p: Packet, alloc: bool): Kernel {
    if alloc && |s.queue| < MAX_PACKET_NUMBER
    then s.(queue := s.queue + [p], admitted := s.admitted + [p])
    else s.(dropped := s.dropped + [p], log := s.log + [EnqueueFail(p.dst)])
  }

  /** receive_packet; alloc tells whether kmalloc finds memory. */
  function ReceivePacket(s: Kernel, p: Packet, alloc: bool): Kernel {
    var s0 := s.(received := s.received + [p]);
    if !s0.flag then s0.(dropped := s0.dropped + [p])
    else Enqueue(if Pending(s0.queue, p.dst) then s0 else s0.(log := s0.log + [Request(p.dst)]), p, alloc)
  }

  /** packet_dequeue at a known place, and what send_packet or the cleanup does with the packet. */
  function TakeOut(s: Kernel, i: nat, v: Verdict): Kernel
    requires i < |s.queue|
  {
    var p := s.queue[i];
    s.(queue := s.queue[..i] + s.queue[i + 1..], left := s.left + [p],
       forwarded := if v.Accept? then s.forwarded + [p] else s.forwarded,
       dropped := if v.Drop? then s.dropped + [p] else s.dropped)
  }

  function Drain(s: Kernel, d: Option<Addr>, v: Verdict): Kernel
    decreases |s.queue|
  {
    var i := Oldest(s.queue, d);
    if i == |s.queue| then s else Drain(TakeOut(s, i, v), d, v)
  }

  lemma DrainStep(s: Kernel, d: Option<Addr>, v: Verdict)
    ensures var i := Oldest(s.queue, d);
            Drain(s, d, v) == if i == |s.queue| then s else Drain(TakeOut(s, i, v), d, v)
  {
  }

  function SendPacket(s: Kernel, d: Addr, v: Verdict): Kernel {
    Drain(s.(log := s.log + [Release(d)]), Some(d), v)
  }

  function CleanupQueue(s: Kernel): Kernel {
    Drain(s.(log := s.log + [Cleared]), None, Drop)
  }

  datatype Event =
    | Arrive(p: Packet, alloc: bool)
    | Init(pid: int)
    | Info(dst: Addr, result: int)
    | Exit(pid: int)
    | Cleanup

  function Step(s: Kernel, ev: Event): Kernel {
    match ev
    case Arrive(p, alloc) => ReceivePacket(s, p, alloc)
    case Init(pid) => s.(pid := pid, flag := true)
    case Info(d, result) => SendPacket(s, d, if result == IP_FOUND then Accept else Drop)
    case Exit(pid) => s.(pid := pid, flag := false)
    case Cleanup => CleanupQueue(s)
  }

  function Run(s: Kernel, evs: seq<Event>): Kernel
    decreases evs
  {
    if evs == [] then s else Run(Step(s, evs[0]), evs[1..])
  }

  // ---- release takes exactly the packets of one destination, in order ----

  /** The packets of q that match, in order. */
  function Of(q: seq<Packet>, d: Option<Addr>): seq<Packet> {
    if q == [] then [] else (if Matches(q[0], d) then [q[0]] else []) + Of(q[1..], d)
  }

  function Others(q: seq<Packet>, d: Option<Addr>): seq<Packet> {
    if q == [] then [] else (if Matches(q[0], d) then [] else [q[0]]) + Others(q[1..], d)
  }

  lemma OfCons(p: Packet, q: seq<Packet>, d: Option<Addr>)
    ensures Of([], d) == Others([], d) == []
    ensures Of([p] + q, d) == (if Matches(p, d) then [p] else []) + Of(q, d)
    ensures Others([p] + q, d) == (if Matches(p, d) then [] else [p]) + Others(q, d)
  {
  }

  lemma {:induction false} OfConcat(a: seq<Packet>, b: seq<Packet>, d: Option<Addr>)
    ensures Of(a + b, d) == Of(a, d) + Of(b, d) && Others(a + b, d) == Others(a, d) + Others(b, d)
  {
    hide Of, Others, Matches;
    if a == [] {
      assert a + b == b;
      OfCons(Packet(0, 0, 0, 0, false), [], d);
    } else {
      OfCons(a[0], a[1..], d);
      OfCons(a[0], a[1..] + b, d);
      assert a == [a[0]] + a[1..] && a + b == [a[0]] + (a[1..] + b);
      OfConcat(a[1..], b, d);
    }
  }

  lemma {:induction false} OfNone(q: seq<Packet>, d: Option<Addr>)
    requires forall j :: 0 <= j < |q| ==> !Matches(q[j], d)
    ensures Of(q, d) == [] && Others(q, d) == q
  {
    if q != [] {
      OfNone(q[1..], d);
    }
  }

  lemma OfOne(p: Packet, d: Option<Addr>)
    ensures Of([p], d) == if Matches(p, d) then [p] else []
    ensures Others([p], d) == if Matches(p, d) then [] else [p]
  {
  }

  lemma OldestOf(q: seq<Packet>, d: Option<Addr>)
    ensures var i := Oldest(q, d);
            if i == |q| then Of(q, d) == [] && Others(q, d) == q
            else var q' := q[..i] + q[i + 1..];
                 Of(q, d) == [q[i]] + Of(q', d) && Others(q, d) == Others(q', d)
  {
    hide Of, Others, Oldest, Matches;
    var i := Oldest(q, d);
    OfNone(q[..i], d);
    if i == |q| {
      assert q[..i] == q;
    } else {
      assert q == q[..i] + ([q[i]] + q[i + 1..]);
      OfConcat(q[..i], [q[i]] + q[i + 1..], d);
      OfConcat([q[i]], q[i + 1..], d);
      OfConcat(q[..i], q[i + 1..], d);
      OfOne(q[i], d);
    }
  }

  /** s once the packets gone have left it and rest has stayed. */
  function Parted(s: Kernel, gone: seq<Packet>, rest: seq<Packet>, v: Verdict): Kernel {
    s.(queue := rest, left := s.left + gone,
       forwarded := if v.Accept? then s.forwarded + gone else s.forwarded,
       dropped := if v.Drop? then s.dropped + gone else s.dropped)
  }

  lemma PartedStep(s: Kernel, i: nat, gone: seq<Packet>, rest: seq<Packet>, v: Verdict)
    requires i < |s.queue|
    ensures Parted(TakeOut(s, i, v), gone, rest, v) == Parted(s, [s.queue[i]] + gone, rest, v)
  {
    var p := s.queue[i];
    assert s.left + [p] + gone == s.left + ([p] + gone);
    assert s.forwarded + [p] + gone == s.forwarded + ([p] + gone);
    assert s.dropped + [p] + gone == s.dropped + ([p] + gone);
  }

  lemma PartedNone(s: Kernel, v: Verdict)
    ensures Parted(s, [], s.queue, v) == s
  {
  }

  /** Exactly the matching packets leave, in arrival order; the rest stays in order. */
  lemma {:induction false} DrainPartitions(s: Kernel, d: Option<Addr>, v: Verdict)
    ensures Drain(s, d, v) == Parted(s, Of(s.queue, d), Others(s.queue, d), v)
    decreases |s.queue|
  {
    hide Of, Others, Oldest, Parted;
    var i := Oldest(s.queue, d);
    OldestOf(s.queue, d);
    if i < |s.queue| {
      var s' := TakeOut(s, i, v);
      DrainPartitions(s', d, v);
      PartedStep(s, i, Of(s'.queue, d), Others(s'.queue, d), v);
    } else {
      PartedNone(s, v);
    }
  }

  lemma {:induction false} OfOthers(q: seq<Packet>, d: Option<Addr>, e: Addr)
    ensures Of(Others(q, d), Some(e)) == if Matches(Packet(0, 0, e, 0, false), d) then [] else Of(q, Some(e))
  {
    if q != [] {
      OfConcat(if Matches(q[0], d) then [] else [q[0]], Others(q[1..], d), Some(e));
      OfOthers(q[1..], d, e);
    }
  }

  /** What the destination e gets out of a drain for d. */
  lemma {:induction false} OfOf(q: seq<Packet>, d: Option<Addr>, e: Addr)
    ensures Of(Of(q, d), Some(e)) == if Matches(Packet(0, 0, e, 0, false), d) then Of(q, Some(e)) else []
  {
    if q != [] {
      OfConcat(if Matches(q[0], d) then [q[0]] else [], Of(q[1..], d), Some(e));
      OfOf(q[1..], d, e);
    }
  }

  lemma {:induction false} PendingOf(q: seq<Packet>, d: Addr)
    ensures Pending(q, d) <==> Of(q, Some(d)) != []
  {
    if q != [] {
      assert q == [q[0]] + q[1..];
      PendingOf(q[1..], d);
    }
  }

  lemma {:induction false} PartsKeepAll(q: seq<Packet>, d: Option<Addr>)
    ensures multiset(q) == multiset(Of(q, d)) + multiset(Others(q, d)) && |Others(q, d)| <= |q|
  {
    if q != [] {
      assert q == [q[0]] + q[1..];
      PartsKeepAll(q[1..], d);
    }
  }

  // ---- conservation and order over every run ----

  ghost predicate Conserved(s: Kernel) {
    multiset(s.received) == multiset(s.queue) + multiset(s.forwarded) + multiset(s.dropped)
  }

  /** Packets for one destination leave the queue in the order they entered it. */
  ghost predicate Fifo(s: Kernel) {
    forall d: Addr {:trigger Of(s.queue, Some(d))} ::
      Of(s.admitted, Some(d)) == Of(s.left, Some(d)) + Of(s.queue, Some(d))
  }

  lemma DrainKeeps(s: Kernel, d: Option<Addr>, v: Verdict)
    requires Conserved(s) && Fifo(s) && |s.queue| <= MAX_PACKET_NUMBER
    ensures var s' := Drain(s, d, v); Conserved(s') && Fifo(s') && |s'.queue| <= MAX_PACKET_NUMBER
  {
    DrainPartitions(s, d, v);
    PartsKeepAll(s.queue, d);
    var s' := Drain(s, d, v);
    hide Drain, Of, Others, Matches;
    forall e: Addr ensures Of(s'.admitted, Some(e)) == Of(s'.left, Some(e)) + Of(s'.queue, Some(e)) {
      OfConcat(s.left, Of(s.queue, d), Some(e));
      OfOthers(s.queue, d, e);
      OfOf(s.queue, d, e);
      assert Of(s.admitted, Some(e)) == Of(s.left, Some(e)) + Of(s.queue, Some(e));
    }
  }

  lemma ArriveKeeps(s: Kernel, p: Packet, alloc: bool)
    requires Conserved(s) && Fifo(s) && |s.queue| <= MAX_PACKET_NUMBER
    ensures var s' := ReceivePacket(s, p, alloc); Conserved(s') && Fifo(s') && |s'.queue| <= MAX_PACKET_NUMBER
  {
    var s' := ReceivePacket(s, p, alloc);
    assert s'.left == s.left
      && ((s'.queue == s.queue && s'.admitted == s.admitted)
          || (s'.queue == s.queue + [p] && s'.admitted == s.admitted + [p]));
    assert Conserved(s');
    ArriveFifo(s, s', p);
  }

  lemma ArriveFifo(s: Kernel, s': Kernel, p: Packet)
    requires Fifo(s) && s'.left == s.left
    requires || (s'.queue == s.queue && s'.admitted == s.admitted)
             || (s'.queue == s.queue + [p] && s'.admitted == s.admitted + [p])
    ensures Fifo(s')
  {
    hide Of;
    forall e: Addr ensures Of(s'.admitted, Some(e)) == Of(s'.left, Some(e)) + Of(s'.queue, Some(e)) {
      OfConcat(s.admitted, [p], Some(e));
      OfConcat(s.queue, [p], Some(e));
      assert Of(s.admitted, Some(e)) == Of(s.left, Some(e)) + Of(s.queue, Some(e));
    }
  }

  lemma StepKeeps(s: Kernel, ev: Event)
    requires Conserved(s) && Fifo(s) && |s.queue| <= MAX_PACKET_NUMBER
    ensures var s' := Step(s, ev); Conserved(s') && Fifo(s') && |s'.queue| <= MAX_PACKET_NUMBER
  {
    hide ReceivePacket, Drain;
    match ev
    case Arrive(p, alloc) => ArriveKeeps(s, p, alloc);
    case Init(pid) => assert Fifo(s.(pid := pid, flag := true));
    case Exit(pid) => assert Fifo(s.(pid := pid, flag := false));
    case Info(d, result) =>
      var s0 := s.(log := s.log + [Release(d)]);
      assert Fifo(s0);
      DrainKeeps(s0, Some(d), if result == IP_FOUND then Accept else Drop);
    case Cleanup =>
      var s0 := s.(log := s.log + [Cleared]);
      assert Fifo(s0);
      DrainKeeps(s0, None, Drop);
  }

  lemma {:induction false} RunKeeps(s: Kernel, evs: seq<Event>)
    requires Conserved(s) && Fifo(s) && |s.queue| <= MAX_PACKET_NUMBER
    ensures var s' := Run(s, evs); Conserved(s') && Fifo(s') && |s'.queue| <= MAX_PACKET_NUMBER
    decreases evs
  {
    hide Conserved, Fifo, Step;
    if evs != [] {
      StepKeeps(s, evs[0]);
      RunKeeps(Step(s, evs[0]), evs[1..]);
    }
  }

  /** Every received packet is in exactly one of queued, forwarded, dropped; no destination is reordered. */
  lemma {:induction false} NothingLost(evs: seq<Event>)
    ensures var s := Run(NO_PACKETS, evs);
            && multiset(s.received) == multiset(s.queue) + multiset(s.forwarded) + multiset(s.dropped)
            && |s.queue| <= MAX_PACKET_NUMBER
            && forall d: Addr {:trigger Of(s.queue, Some(d))} ::
                 Of(s.admitted, Some(d)) == Of(s.left, Some(d)) + Of(s.queue, Some(d))
  {
    RunKeeps(NO_PACKETS, evs);
  }

  // ---- the request discipline ----

  ghost predicate UnansweredSince(log: seq<Act>, i: nat, d: Addr) {
    forall k :: i < k < |log| ==> log[k] != Release(d) && log[k] != Cleared
  }

  /** Has there been a request attempt for d since its last release? */
  ghost predicate Asked(log: seq<Act>, d: Addr) {
    exists i :: 0 <= i < |log| && log[i] == Request(d) && UnansweredSince(log, i, d)
  }

  /** Acts after which a new request for d is in order. */
  predicate Frees(a: Act, d: Addr) {
    a == Release(d) || a == EnqueueFail(d) || a == Cleared
  }

  /** Between two request attempts for d there is a release of it or a failed enqueue. */
  ghost predicate Disciplined(log: seq<Act>) {
    forall i, j :: 0 <= i < j < |log| && log[i].Request? && log[j] == log[i] ==>
      exists k :: i < k < j && Frees(log[k], log[i].dst)
  }

  /** The last request for d, if any, has been followed by an act that frees d. */
  ghost predicate Settled(log: seq<Act>, d: Addr) {
    forall i :: 0 <= i < |log| && log[i] == Request(d) ==> exists k :: i < k < |log| && Frees(log[k], d)
  }

  ghost predicate RequestInv(s: Kernel) {
    && Disciplined(s.log)
    && (forall d: Addr :: Pending(s.queue, d) ==> Asked(s.log, d))
    && (forall d: Addr :: !Pending(s.queue, d) ==> Settled(s.log, d))
  }

  lemma SettledAppend(log: seq<Act>, a: Act, d: Addr)
    requires Settled(log, d) || Frees(a, d)
    requires a != Request(d)
    ensures Settled(log + [a], d)
  {
    var log' := log + [a];
    forall i | 0 <= i < |log'| && log'[i] == Request(d) ensures exists k :: i < k < |log'| && Frees(log'[k], d) {
      if Frees(a, d) {
        assert Frees(log'[|log|], d);
      } else {
        assert log[i] == Request(d);
        var k :| i < k < |log| && Frees(log[k], d);
        assert Frees(log'[k], d);
      }
    }
  }

  lemma DisciplinedAppend(log: seq<Act>, a: Act)
    requires Disciplined(log) && (a.Request? ==> Settled(log, a.dst))
    ensures Disciplined(log + [a])
  {
    var log' := log + [a];
    forall i, j | 0 <= i < j < |log'| && log'[i].Request? && log'[j] == log'[i]
      ensures exists k :: i < k < j && Frees(log'[k], log'[i].dst)
    {
      assert log[i] == log'[i];
      if j == |log| {
        var k :| i < k < |log| && Frees(log[k], a.dst);
        assert Frees(log'[k], a.dst);
      } else {
        var k :| i < k < j && Frees(log[k], log[i].dst);
        assert Frees(log'[k], log[i].dst);
      }
    }
  }

  lemma AskedAppend(log: seq<Act>, a: Act, d: Addr)
    requires a == Request(d) || (Asked(log, d) && a != Release(d) && a != Cleared)
    ensures Asked(log + [a], d)
  {
    var log' := log + [a];
    if a == Request(d) {
      assert log'[|log|] == Request(d) && UnansweredSince(log', |log|, d);
    } else {
      var i :| 0 <= i < |log| && log[i] == Request(d) && UnansweredSince(log, i, d);
      assert log'[i] == Request(d) && UnansweredSince(log', i, d);
    }
  }

  lemma PendingAppend(q: seq<Packet>, p: Packet, d: Addr)
    ensures Pending(q + [p], d) <==> Pending(q, d) || p.dst == d
  {
    assert (q + [p])[|q|] == p;
    if Pending(q, d) {
      var i :| 0 <= i < |q| && q[i].dst == d;
      assert (q + [p])[i].dst == d;
    }
  }

  /** The request that receive_packet makes, if it makes one. */
  lemma AskKeeps(s: Kernel, d: Addr)
    requires RequestInv(s)
    ensures var log := if Pending(s.queue, d) then s.log else s.log + [Request(d)];
            && Disciplined(log) && Asked(log, d)
            && (forall e: Addr :: Pending(s.queue, e) ==> Asked(log, e))
            && (forall e: Addr :: !Pending(s.queue, e) && e != d ==> Settled(log, e))
  {
    hide Pending, Asked, Disciplined, Settled;
    if !Pending(s.queue, d) {
      var log := s.log + [Request(d)];
      DisciplinedAppend(s.log, Request(d));
      forall e: Addr | e == d || Asked(s.log, e) ensures Asked(log, e) {
        AskedAppend(s.log, Request(d), e);
      }
      forall e: Addr | e != d && Settled(s.log, e) ensures Settled(log, e) {
        SettledAppend(s.log, Request(d), e);
      }
    }
  }

  lemma {:induction false} ArriveKeepsRequests(s: Kernel, p: Packet, alloc: bool)
    requires RequestInv(s)
    ensures RequestInv(ReceivePacket(s, p, alloc))
  {
    var s' := ReceivePacket(s, p, alloc);
    var log := if Pending(s.queue, p.dst) then s.log else s.log + [Request(p.dst)];
    AskKeeps(s, p.dst);
    hide Pending, Asked, Disciplined, Settled;
    if s.flag {
      if alloc && |s.queue| < MAX_PACKET_NUMBER {
        assert s'.log == log;
        forall e: Addr ensures Pending(s'.queue, e) <==> Pending(s.queue, e) || p.dst == e {
          PendingAppend(s.queue, p, e);
        }
      } else {
        assert s'.log == log + [EnqueueFail(p.dst)];
        DisciplinedAppend(log, EnqueueFail(p.dst));
        forall e: Addr | Asked(log, e) ensures Asked(s'.log, e) {
          AskedAppend(log, EnqueueFail(p.dst), e);
        }
        forall e: Addr | e == p.dst || Settled(log, e) ensures Settled(s'.log, e) {
          SettledAppend(log, EnqueueFail(p.dst), e);
        }
      }
    }
  }

  lemma DrainKeepsRequests(s: Kernel, a: Act, d: Option<Addr>, v: Verdict)
    requires RequestInv(s) && a == (if d.Some? then Release(d.value) else Cleared)
    ensures RequestInv(Drain(s.(log := s.log + [a]), d, v))
  {
    var s' := Drain(s.(log := s.log + [a]), d, v);
    DrainPartitions(s.(log := s.log + [a]), d, v);
    hide Drain, Pending, Asked, Disciplined, Settled, Of, Others;
    DisciplinedAppend(s.log, a);
    forall e: Addr
      ensures (Pending(s'.queue, e) ==> Asked(s'.log, e)) && (!Pending(s'.queue, e) ==> Settled(s'.log, e))
    {
      PendingOf(s.queue, e);
      PendingOf(s'.queue, e);
      OfOthers(s.queue, d, e);
      if Pending(s'.queue, e) {
        AskedAppend(s.log, a, e);
      } else {
        SettledAppend(s.log, a, e);
      }
    }
  }

  lemma {:induction false} RunKeepsRequests(s: Kernel, evs: seq<Event>)
    requires RequestInv(s)
    ensures RequestInv(Run(s, evs))
    decreases evs
  {
    if evs != [] {
      match evs[0] {
        case Arrive(p, alloc) => ArriveKeepsRequests(s, p, alloc);
        case Init(_) =>
        case Exit(_) =>
        case Info(d, result) => DrainKeepsRequests(s, Release(d), Some(d), if result == IP_FOUND then Accept else Drop);
        case Cleanup => DrainKeepsRequests(s, Cleared, None, Drop);
      }
      RunKeepsRequests(Step(s, evs[0]), evs[1..]);
    }
  }

  /**
   Over every run: a destination with queued packets has had a request attempt since its last
   release, and no destination is asked for twice without a release or a failed enqueue in between.
   */
  lemma {:induction false} RequestsDisciplined(evs: seq<Event>)
    ensures var s := Run(NO_PACKETS, evs);
            && Disciplined(s.log)
            && forall d: Addr :: Pending(s.queue, d) ==> Asked(s.log, d)
  {
    RunKeepsRequests(NO_PACKETS, evs);
  }

  /** Without a failed enqueue for d and without a cleanup, two attempts for d have a release of d between them. */
  lemma ReleaseBetween(evs: seq<Event>, d: Addr, i: nat, j: nat)
    requires var log := Run(NO_PACKETS, evs).log; i < j < |log| && log[i] == Request(d) && log[j] == Request(d)
    requires var log := Run(NO_PACKETS, evs).log;
             forall k :: i < k < j ==> log[k] != EnqueueFail(d) && log[k] != Cleared
    ensures exists k :: i < k < j && Run(NO_PACKETS, evs).log[k] == Release(d)
  {
    RequestsDisciplined(evs);
    var log := Run(NO_PACKETS, evs).log;
    var k :| i < k < j && Frees(log[k], log[i].dst);
  }

  /**
   The failed enqueue does matter: of two arrivals for a destination without queued packets the second
   one asks again if and only if the first one found no memory or no room.
   */
  lemma SecondArrivalAsksIff(s: Kernel, p: Packet, p': Packet, alloc: bool, alloc': bool)
    requires s.flag && !Pending(s.queue, p.dst) && p'.dst == p.dst
    ensures var s1 := ReceivePacket(s, p, alloc);
            var s2 := ReceivePacket(s1, p', alloc');
            && |s.log| <= |s1.log| <= |s2.log| && Request(p.dst) in s1.log[|s.log|..]
            && (Request(p.dst) in s2.log[|s1.log|..] <==> !(alloc && |s.queue| < MAX_PACKET_NUMBER))
  {
    var s1 := ReceivePacket(s, p, alloc);
    var s2 := ReceivePacket(s1, p', alloc');
    PendingAppend(s.queue, p, p.dst);
    LogGrows(s, p, alloc);
    LogGrows(s1, p', alloc');
    hide Pending, ReceivePacket;
  }

  /** What one arrival logs. */
  lemma LogGrows(s: Kernel, p: Packet, alloc: bool)
    requires s.flag
    ensures var s' := ReceivePacket(s, p, alloc);
            && s'.flag && |s.log| <= |s'.log| && s'.log[..|s.log|] == s.log
            && s'.log[|s.log|..] == (if Pending(s.queue, p.dst) then [] else [Request(p.dst)])
                                    + (if alloc && |s.queue| < MAX_PACKET_NUMBER then [] else [EnqueueFail(p.dst)])
            && s'.queue == if alloc && |s.queue| < MAX_PACKET_NUMBER then s.queue + [p] else s.queue
  {
    hide Pending;
  }

  // ---- what becomes of every packet, told from the events alone ----

  /** The channel is open after an Init until the next Exit. */
  function Open(evs: seq<Event>): bool {
    if evs == [] then false
    else match evs[|evs| - 1]
      case Init(_) => true
      case Exit(_) => false
      case _ => Open(evs[..|evs| - 1])
  }

  /** Who speaks for the agent: the last one to open or close the channel. */
  function Speaker(evs: seq<Event>): int {
    if evs == [] then -1
    else match evs[|evs| - 1]
      case Init(pid) => pid
      case Exit(pid) => pid
      case _ => Speaker(evs[..|evs| - 1])
  }

  function Waiting(evs: seq<Event>): seq<Packet> {
    if evs == [] then []
    else
      var before := evs[..|evs| - 1];
      match evs[|evs| - 1]
      case Arrive(p, alloc) =>
        if HasRoom(Open(before), Waiting(before), alloc) then Waiting(before) + [p] else Waiting(before)
      case Info(d, _) => Others(Waiting(before), Some(d))
      case Cleanup => []
      case _ => Waiting(before)
  }

  /** Does a packet that arrives enter the queue? */
  predicate HasRoom(open: bool, waiting: seq<Packet>, alloc: bool) {
    open && alloc && |waiting| < 1000
  }

  /** Forwarded by the last event: what waits for a destination when it is found. */
  function ForwardedLast(evs: seq<Event>): seq<Packet>
    requires evs != []
  {
    match evs[|evs| - 1]
    case Info(d, result) => if result == 1 then Of(Waiting(evs[..|evs| - 1]), Some(d)) else []
    case _ => []
  }

  /** Dropped by the last event: what cannot enter, what waits for a destination that is not found, or all. */
  function DroppedLast(evs: seq<Event>): seq<Packet>
    requires evs != []
  {
    var before := evs[..|evs| - 1];
    match evs[|evs| - 1]
    case Arrive(p, alloc) => if HasRoom(Open(before), Waiting(before), alloc) then [] else [p]
    case Info(d, result) => if result == 1 then [] else Of(Waiting(before), Some(d))
    case Cleanup => Waiting(before)
    case _ => []
  }

  function Forwarded(evs: seq<Event>): seq<Packet> {
    if evs == [] then [] else Forwarded(evs[..|evs| - 1]) + ForwardedLast(evs)
  }

  function Dropped(evs: seq<Event>): seq<Packet> {
    if evs == [] then [] else Dropped(evs[..|evs| - 1]) + DroppedLast(evs)
  }

  /** An answer of 1 forwards what waits for its destination, in order; any other answer drops it. */
  lemma {:induction false} AnswerDecides(s: Kernel, d: Addr, result: int)
    ensures var s', mine := Step(s, Info(d, result)), Of(s.queue, Some(d));
            && s'.queue == Others(s.queue, Some(d)) && s'.flag == s.flag && s'.pid == s.pid
            && s'.forwarded == (if result == 1 then s.forwarded + mine else s.forwarded)
            && s'.dropped == if result == 1 then s.dropped else s.dropped + mine
  {
    hide Drain, Of, Others;
    DrainPartitions(s.(log := s.log + [Release(d)]), Some(d), if result == IP_FOUND then Accept else Drop);
  }

  lemma CleanupEmpties(s: Kernel)
    ensures var s' := Step(s, Cleanup);
            && s'.queue == [] && s'.flag == s.flag && s'.pid == s.pid
            && s'.forwarded == s.forwarded && s'.dropped == s.dropped + s.queue
  {
    hide Drain, Of, Others;
    DrainPartitions(s.(log := s.log + [Cleared]), None, Drop);
    AllMatch(s.queue);
  }

  lemma {:induction false} AllMatch(q: seq<Packet>)
    ensures Of(q, None) == q && Others(q, None) == []
  {
    if q != [] {
      AllMatch(q[1..]);
    }
  }

  lemma ArrivalExact(s: Kernel, p: Packet, alloc: bool)
    ensures var s', enters := Step(s, Arrive(p, alloc)), s.flag && alloc && |s.queue| < 1000;
            && s'.queue == (if enters then s.queue + [p] else s.queue) && s'.flag == s.flag && s'.pid == s.pid
            && s'.dropped == (if enters then s.dropped else s.dropped + [p]) && s'.forwarded == s.forwarded
  {
    hide Pending;
  }

  lemma {:induction false} RunLast(s: Kernel, evs: seq<Event>)
    requires evs != []
    ensures Run(s, evs) == Step(Run(s, evs[..|evs| - 1]), evs[|evs| - 1])
    decreases evs
  {
    hide Step;
    if |evs| > 1 {
      assert evs[1..][..|evs| - 2] == evs[..|evs| - 1][1..];
      RunLast(Step(s, evs[0]), evs[1..]);
    } else {
      assert evs[1..] == [];
    }
  }

  /** Over every run queue, channel, forwarded and dropped packets are exactly what the events say, in order. */
  lemma {:induction false} FateOfPackets(evs: seq<Event>)
    ensures var s := Run(NO_PACKETS, evs);
            && s.queue == Waiting(evs) && s.flag == Open(evs) && s.pid == Speaker(evs)
            && s.forwarded == Forwarded(evs) && s.dropped == Dropped(evs)
  {
    if evs != [] {
      hide Run, Step, Of, Others;
      var before := evs[..|evs| - 1];
      var s := Run(NO_PACKETS, before);
      FateOfPackets(before);
      RunLast(NO_PACKETS, evs);
      match evs[|evs| - 1]
      case Arrive(p, alloc) => ArrivalExact(s, p, alloc);
      case Info(d, result) => AnswerDecides(s, d, result);
      case Cleanup => CleanupEmpties(s);
      case Init(pid) => ChannelOnly(s, pid);
      case Exit(pid) => ChannelOnly(s, pid);
    }
  }

  lemma ChannelOnly(s: Kernel, pid: int)
    ensures Step(s, Init(pid)) == s.(pid := pid, flag := true) && Step(s, Exit(pid)) == s.(pid := pid, flag := false)
  {
  }

  /** Event k takes p out of the queue and forwards it. */
  ghost predicate ForwardedAt(evs: seq<Event>, k: nat, p: Packet) {
    k < |evs| && evs[k] == Info(p.dst, 1) && p in Run(NO_PACKETS, evs[..k]).queue
  }

  /** Event k drops p: a closed channel, no memory or no room, another answer than 1, or a cleanup. */
  ghost predicate DroppedAt(evs: seq<Event>, k: nat, p: Packet) {
    k < |evs| &&
    var s := Run(NO_PACKETS, evs[..k]);
    || (evs[k].Arrive? && evs[k].p == p && (!s.flag || !evs[k].alloc || |s.queue| >= 1000))
    || (evs[k].Info? && evs[k].dst == p.dst && evs[k].result != 1 && p in s.queue)
    || (evs[k].Cleanup? && p in s.queue)
  }

  lemma {:induction false} OfMembers(q: seq<Packet>, d: Addr, p: Packet)
    requires p in Of(q, Some(d))
    ensures p in q && p.dst == d
  {
    if p in Of(q[1..], Some(d)) {
      OfMembers(q[1..], d, p);
    }
  }

  /** Every forwarded packet left the queue at an answer 1 for its own destination. */
  lemma {:induction false} ForwardedWasFound(evs: seq<Event>, p: Packet)
    requires p in Run(NO_PACKETS, evs).forwarded
    ensures exists k: nat :: ForwardedAt(evs, k, p)
  {
    FateOfPackets(evs);
    if evs != [] {
      hide Run, Of, Others;
      var k := |evs| - 1;
      FateOfPackets(evs[..k]);
      if p in Forwarded(evs[..k]) {
        ForwardedWasFound(evs[..k], p);
        var j: nat :| ForwardedAt(evs[..k], j, p);
        assert evs[..k][..j] == evs[..j];
        assert ForwardedAt(evs, j, p);
      } else {
        OfMembers(Waiting(evs[..k]), evs[k].dst, p);
        assert ForwardedAt(evs, k, p);
      }
    }
  }

  /** Every dropped packet has a cause. */
  lemma {:induction false} DroppedHasCause(evs: seq<Event>, p: Packet)
    requires p in Run(NO_PACKETS, evs).dropped
    ensures exists k: nat :: DroppedAt(evs, k, p)
  {
    FateOfPackets(evs);
    if evs != [] {
      hide Run, Of, Others;
      var k := |evs| - 1;
      FateOfPackets(evs[..k]);
      if p in Dropped(evs[..k]) {
        DroppedHasCause(evs[..k], p);
        var j: nat :| DroppedAt(evs[..k], j, p);
        assert evs[..k][..j] == evs[..j];
        assert DroppedAt(evs, j, p);
      } else {
        if evs[k].Info? {
          OfMembers(Waiting(evs[..k]), evs[k].dst, p);
        }
        assert DroppedAt(evs, k, p);
      }
    }
  }
}
