/** scheduleTimer: the loop that fires what is due while its handlers insert into the same list. */
module Schedule {
  import opened Base
  import opened Params
  import opened Timers
  import opened Node
  import opened Steps
  import opened Effects

  /** The list is as before, or one timer strictly after now was inserted. */
  ghost predicate AddsLater<K(!new)>(q: seq<Timer<K>>, q': seq<Timer<K>>, now: int) {
    q' == q || exists t: Timer<K> :: now < t.timeout && q' == Insert(q, t)
  }

  /** What a handler may do to the queue: nothing, or add (and perhaps arm for) one later timer. */
  ghost predicate OneTimerLater(tq: Queue<Job>, tq': Queue<Job>, now: int) {
    tq' == tq || exists delay: int, j: Job ::
      0 < delay && (tq' == AddTimer(tq, now, delay, j) || tq' == SetTimer(tq, now, delay, j))
  }

  lemma ResendQueue(n: Node, d: Addr, now: int)
    ensures OneTimerLater(n.tq, ResendRREQ(n, d, now).tq, now)
  {
    hide Position;
    var i := FirstPending(n.pending, d);
    if i < |n.pending| && NextRing(n.pending[i]).retries <= RREQ_RETRIES {
      var delay := 2 * NextRing(n.pending[i]).ttl * NODE_TRAVERSAL_TIME;
      assert ResendRREQ(n, d, now).tq == SetTimer(n.tq, now, delay, Job(RreqTimer, d));
    }
  }

  lemma HelloQueue(n: Node, now: int)
    ensures SendHello(n, now).tq == AddTimer(n.tq, now, HELLO_INTERVAL, Job(HelloTimer, 0))
  {
  }

  lemma PeriodicQueue(n: Node, env: Env)
    ensures PeriodicHandler(n, env).tq == AddTimer(n.tq, env.now, PERIODIC_INTERVAL, Job(PeriodicTimer, 0))
  {
    var n1 := n.(tq := AddTimer(n.tq, env.now, PERIODIC_INTERVAL, Job(PeriodicTimer, 0)));
    RefreshAllFrame(n1, Keys(n1.table.Keys), env);
  }

  lemma QuietHandlers(n: Node, d: Addr, env: Env)
    ensures LRHandler(n, d, env.now).tq == n.tq && NeighborTimeout(n, d, env).tq == n.tq
  {
    hide LRHandler, BreakVia, BrokenVia, BreakNeighbor;
    LRHandlerShape(n, d, env.now);
  }

  lemma HandlerQueue(n: Node, j: Job, env: Env)
    ensures OneTimerLater(n.tq, Handle(n, j, env).tq, env.now)
  {
    hide SendHello, PeriodicHandler, ResendRREQ, NeighborTimeout, LRHandler, AddTimer, SetTimer;
    ResendQueue(n, j.data, env.now);
    HelloQueue(n, env.now);
    HelloQueue(RebootDone(n), env.now);
    PeriodicQueue(n, env);
    QuietHandlers(n, j.data, env);
  }

  /** Every handler of the daemon only inserts timers strictly after now. */
  lemma {:induction false} HandlersAddLater(n: Node, j: Job, env: Env)
    ensures AddsLater(n.tq.list, Handle(n, j, env).tq.list, env.now)
  {
    HandlerQueue(n, j, env);
    hide Handle, Insert;
    var tq' := Handle(n, j, env).tq;
    if tq' != n.tq {
      var delay: int, k: Job :| 0 < delay
        && (tq' == AddTimer(n.tq, env.now, delay, k) || tq' == SetTimer(n.tq, env.now, delay, k));
      var t := Timer(env.now + delay, k);
      assert env.now < t.timeout && tq'.list == Insert(n.tq.list, t);
    }
  }

  /** One turn of the loop: run the head's handler, then erase the head. */
  function FireHead(n: Node, env: Env): Node
    requires n.tq.list != [] && n.tq.list[0].timeout <= env.now
    ensures CountDue(FireHead(n, env).tq.list, env.now) < CountDue(n.tq.list, env.now)
  {
    var n1 := Handle(n, n.tq.list[0].what, env);
    HeadStays(n, env);
    n1.(tq := n1.tq.(list := n1.tq.list[1..]))
  }

  /** The handler leaves the iterator on the timer being fired, and adds nothing that is due. */
  lemma HeadStays(n: Node, env: Env)
    requires n.tq.list != [] && n.tq.list[0].timeout <= env.now
    ensures var q' := Handle(n, n.tq.list[0].what, env).tq.list;
            && q' != [] && q'[0] == n.tq.list[0]
            && AddsLater(n.tq.list[1..], q'[1..], env.now)
            && CountDue(q'[1..], env.now) == CountDue(n.tq.list, env.now) - 1
  {
    var q := n.tq.list;
    var q' := Handle(n, q[0].what, env).tq.list;
    HandlersAddLater(n, q[0].what, env);
    hide Handle;
    if q' != q {
      var t: Timer<Job> :| env.now < t.timeout && q' == Insert(q, t);
      InsertBehindHead(q, t);
      CountDueInsert(q[1..], t, env.now);
    }
  }

  function ScheduleTimer(n: Node, env: Env): Node
    decreases CountDue(n.tq.list, env.now)
  {
    if n.tq.list == [] || env.now < n.tq.list[0].timeout then n.(tq := Rearm(n.tq, env.now))
    else ScheduleTimer(FireHead(n, env), env)
  }

  /** The timers fired, in firing order. */
  ghost function Fired(n: Node, env: Env): seq<Timer<Job>>
    decreases CountDue(n.tq.list, env.now)
  {
    if n.tq.list == [] || env.now < n.tq.list[0].timeout then []
    else [n.tq.list[0]] + Fired(FireHead(n, env), env)
  }

  ghost function DuePrefix<K>(q: seq<Timer<K>>, now: int): seq<Timer<K>> {
    if q == [] || now < q[0].timeout then [] else [q[0]] + DuePrefix(q[1..], now)
  }

  lemma {:induction false} DuePrefixInsert<K>(q: seq<Timer<K>>, t: Timer<K>, now: int)
    requires now < t.timeout
    ensures DuePrefix(Insert(q, t), now) == DuePrefix(q, now)
  {
    if q != [] && q[0].timeout <= now {
      InsertBehindHead(q, t);
      DuePrefixInsert(q[1..], t, now);
    }
  }

  /** In a sorted list the prefix is all that is due. */
  lemma {:induction false} DuePrefixIsAllDue<K>(q: seq<Timer<K>>, now: int)
    requires Sorted(q)
    ensures DuePrefix(q, now) <= q && |DuePrefix(q, now)| == CountDue(q, now)
    ensures NoneDue(q[CountDue(q, now)..], now)
    ensures forall i :: 0 <= i < CountDue(q, now) ==> q[i].timeout <= now
  {
    if q != [] {
      if q[0].timeout <= now {
        DuePrefixIsAllDue(q[1..], now);
        assert q[1..][CountDue(q[1..], now)..] == q[CountDue(q, now)..];
      } else {
        NothingDue(q, now);
      }
    }
  }

  lemma {:induction false} NothingDue<K>(q: seq<Timer<K>>, now: int)
    requires NoneDue(q, now)
    ensures CountDue(q, now) == 0
  {
    if q != [] {
      NothingDue(q[1..], now);
    }
  }

  lemma AddsLaterKeeps<K(!new)>(q: seq<Timer<K>>, q': seq<Timer<K>>, now: int)
    requires Sorted(q) && AddsLater(q, q', now)
    ensures Sorted(q') && DuePrefix(q', now) == DuePrefix(q, now)
    ensures CountDue(q', now) == CountDue(q, now)
  {
    hide Insert, Sorted;
    if q' != q {
      var t: Timer<K> :| now < t.timeout && q' == Insert(q, t);
      InsertSorted(q, t);
      DuePrefixInsert(q, t, now);
      CountDueInsert(q, t, now);
    }
  }

  lemma InsertedStays<K>(a: seq<Timer<K>>, t: Timer<K>, b: seq<Timer<K>>)
    ensures multiset(a + b) <= multiset(a + [t] + b)
  {
  }

  /** The timers that are not due stay. */
  lemma AddsLaterRest<K(!new)>(q: seq<Timer<K>>, q': seq<Timer<K>>, now: int)
    requires Sorted(q) && AddsLater(q, q', now) && CountDue(q', now) == CountDue(q, now)
    ensures multiset(q[CountDue(q, now)..]) <= multiset(q'[CountDue(q, now)..])
  {
    if q' != q {
      var t: Timer<K> :| now < t.timeout && q' == Insert(q, t);
      var k, i := CountDue(q, now), Position(q, t.timeout);
      assert k <= i by {
        DuePrefixIsAllDue(q, now);
      }
      hide CountDue, Position, Sorted, DuePrefix;
      SplitRest(q, t, k, i);
      InsertedStays(q[k..i], t, q[i..]);
    }
  }

  lemma SplitRest<K>(q: seq<Timer<K>>, t: Timer<K>, k: nat, i: nat)
    requires k <= i <= |q|
    ensures q[k..] == q[k..i] + q[i..]
    ensures (q[..i] + [t] + q[i..])[k..] == q[k..i] + [t] + q[i..]
  {
  }

  lemma {:induction false} FiresDuePrefix(n: Node, env: Env)
    requires Sorted(n.tq.list)
    ensures Fired(n, env) == DuePrefix(n.tq.list, env.now)
    decreases CountDue(n.tq.list, env.now)
  {
    var q := n.tq.list;
    if q != [] && q[0].timeout <= env.now {
      HeadStays(n, env);
      AddsLaterKeeps(q[1..], FireHead(n, env).tq.list, env.now);
      FiresDuePrefix(FireHead(n, env), env);
      hide Handle, FireHead;
    }
  }

  /** What scheduleTimer leaves of q: everything not due, sorted, with the alarm set for the head. */
  ghost predicate Left(q: seq<Timer<Job>>, tq: Queue<Job>, now: int) {
    && Sorted(tq.list) && NoneDue(tq.list, now)
    && multiset(q[CountDue(q, now)..]) <= multiset(tq.list)
    && (tq.list != [] ==> tq.alarm == Some(tq.list[0].timeout))
  }

  lemma LeftChain(q: seq<Timer<Job>>, m: seq<Timer<Job>>, tq: Queue<Job>, now: int)
    requires q != [] && q[0].timeout <= now && Sorted(q) && AddsLater(q[1..], m, now) && Left(m, tq, now)
    ensures Left(q, tq, now)
  {
    AddsLaterKeeps(q[1..], m, now);
    AddsLaterRest(q[1..], m, now);
    assert q[1..][CountDue(q[1..], now)..] == q[CountDue(q, now)..];
    hide Sorted, AddsLater, NoneDue, DuePrefix;
  }

  lemma {:induction false} LeavesTheRest(n: Node, env: Env)
    requires Sorted(n.tq.list) && 0 <= env.now
    ensures Left(n.tq.list, ScheduleTimer(n, env).tq, env.now)
    decreases CountDue(n.tq.list, env.now)
  {
    hide Handle, DuePrefix, Left;
    var q := n.tq.list;
    if q == [] || env.now < q[0].timeout {
      assert Left(q, ScheduleTimer(n, env).tq, env.now) by {
        NothingToDo(n, env);
      }
    } else {
      HeadStays(n, env);
      var m := FireHead(n, env);
      AddsLaterKeeps(q[1..], m.tq.list, env.now);
      LeavesTheRest(m, env);
      LeftChain(q, m.tq.list, ScheduleTimer(m, env).tq, env.now);
    }
  }

  lemma NothingToDo(n: Node, env: Env)
    requires Sorted(n.tq.list) && 0 <= env.now && (n.tq.list == [] || env.now < n.tq.list[0].timeout)
    ensures Left(n.tq.list, ScheduleTimer(n, env).tq, env.now)
  {
    assert n.tq.list[0..] == n.tq.list;
    DuePrefixIsAllDue(n.tq.list, env.now);
  }

  /**
   scheduleTimer, for a sorted list: it fires exactly the timers that were due when it started, in
   list order; what is left is sorted, later than now, and contains every timer that was not due;
   and the alarm is set for the new head.
   */
  lemma {:induction false} ScheduleTimerCorrect(n: Node, env: Env)
    requires Sorted(n.tq.list) && 0 <= env.now
    ensures var n', k := ScheduleTimer(n, env), CountDue(n.tq.list, env.now);
            && Fired(n, env) == n.tq.list[..k]
            && (forall i :: 0 <= i < |n.tq.list| ==> (n.tq.list[i].timeout <= env.now <==> i < k))
            && Left(n.tq.list, n'.tq, env.now)
  {
    hide ScheduleTimer, Fired, CountDue, Sorted, Left;
    var q, k := n.tq.list, CountDue(n.tq.list, env.now);
    FiresDuePrefix(n, env);
    LeavesTheRest(n, env);
    DuePrefixIsAllDue(q, env.now);
    forall i | 0 <= i < |q| ensures q[i].timeout <= env.now <==> i < k {
      assert i >= k ==> q[i] == q[k..][i - k];
    }
  }
}
