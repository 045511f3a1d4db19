/**
 The sorted timer list and its single OS alarm, as values. Both timer queues of the repository
 (LA_Client_aodv/timerQueue.cc and lib/ND/nd_timer_queue.cpp) are instances; K is what the timer
 data says (its type and its arguments).
 */
module Timers {
  import opened Base

  datatype Timer<+K> = Timer(timeout: int, what: K)

  /** The list, and the absolute deadline the OS alarm is set for. */
  datatype Queue<+K> = Queue(list: seq<Timer<K>>, alarm: Option<int>)

  ghost predicate Sorted<K>(q: seq<Timer<K>>) {
    forall i, j :: 0 <= i < j < |q| ==> q[i].timeout <= q[j].timeout
  }

  ghost predicate NoneDue<K>(q: seq<Timer<K>>, now: int) {
    forall i :: 0 <= i < |q| ==> now < q[i].timeout
  }

  /** The alarm is never late. */
  ghost predicate AlarmOk<K>(tq: Queue<K>) {
    tq.list != [] ==> tq.alarm.Some? && tq.alarm.value <= tq.list[0].timeout
  }

  /** Where timer_add puts a new timer: before the first one that is not earlier. */
  function Position<K>(q: seq<Timer<K>>, timeout: int): (i: nat)
    ensures i <= |q|
    ensures forall j :: 0 <= j < i ==> q[j].timeout < timeout
    ensures i < |q| ==> timeout <= q[i].timeout
  {
    if q == [] || timeout <= q[0].timeout then 0 else 1 + Position(q[1..], timeout)
  }

  function Insert<K>(q: seq<Timer<K>>, t: Timer<K>): seq<Timer<K>> {
    var i := Position(q, t.timeout);
    q[..i] + [t] + q[i..]
  }

  function AddTimer<K>(tq: Queue<K>, now: int, delay: int, what: K): Queue<K> {
    tq.(list := Insert(tq.list, Timer(now + delay, what)))
  }

  /** setitimer with a relative u_int64_t delay: zero disarms, a negative difference wraps. */
  function Arm(now: int, delay: int): Option<int> {
    if delay == 0 then None
    else if delay < 0 then Some(now + delay + 0x1_0000_0000_0000_0000)
    else Some(now + delay)
  }

  function SetTimer<K>(tq: Queue<K>, now: int, delay: int, what: K): Queue<K> {
    var added := AddTimer(tq, now, delay, what);
    if added.list[0].timeout == now + delay then added.(alarm := Arm(now, delay)) else added
  }

  /** Index of the first timer whose data satisfies p, or the length of the list. */
  function First<K>(q: seq<Timer<K>>, p: K -> bool): (i: nat)
    ensures i <= |q|
    ensures forall j :: 0 <= j < i ==> !p(q[j].what)
    ensures i < |q| ==> p(q[i].what)
  {
    if q == [] || p(q[0].what) then 0 else 1 + First(q[1..], p)
  }

  function RemoveFirst<K>(q: seq<Timer<K>>, p: K -> bool): seq<Timer<K>> {
    var i := First(q, p);
    if i < |q| then q[..i] + q[i + 1..] else q
  }

  /** Removal that re-arms the alarm when the removed timer looks like the head. */
  function RemoveArmed<K(==)>(tq: Queue<K>, now: int, p: K -> bool): Queue<K> {
    var q := tq.list;
    var i := First(q, p);
    if i == |q| then tq
    else Queue(RemoveFirst(q, p),
               if q[0].what == q[i].what && i + 1 < |q| then Arm(now, q[i + 1].timeout - now) else tq.alarm)
  }

  function RemoveQuiet<K>(tq: Queue<K>, p: K -> bool): Queue<K> {
    tq.(list := RemoveFirst(tq.list, p))
  }

  /** The re-arming at the end of scheduleTimer. */
  function Rearm<K>(tq: Queue<K>, now: int): Queue<K> {
    if tq.list != [] && 0 < tq.list[0].timeout && now < tq.list[0].timeout
    then tq.(alarm := Arm(now, tq.list[0].timeout - now)) else tq
  }

  function Count<K>(q: seq<Timer<K>>, p: K -> bool): nat {
    if q == [] then 0 else (if p(q[0].what) then 1 else 0) + Count(q[1..], p)
  }

  /** Number of timers that are due: the termination measure of scheduleTimer. */
  function CountDue<K>(q: seq<Timer<K>>, now: int): (n: nat)
    ensures n <= |q|
  {
    if q == [] then 0 else (if q[0].timeout <= now then 1 else 0) + CountDue(q[1..], now)
  }

  lemma {:induction false} CountConcat<K>(a: seq<Timer<K>>, b: seq<Timer<K>>, p: K -> bool)
    ensures Count(a + b, p) == Count(a, p) + Count(b, p)
  {
    if a == [] {
      assert a + b == b;
    } else {
      assert (a + b)[1..] == a[1..] + b;
      CountConcat(a[1..], b, p);
    }
  }

  lemma {:induction false} CountDueConcat<K>(a: seq<Timer<K>>, b: seq<Timer<K>>, now: int)
    ensures CountDue(a + b, now) == CountDue(a, now) + CountDue(b, now)
  {
    if a == [] {
      assert a + b == b;
    } else {
      assert (a + b)[1..] == a[1..] + b;
      CountDueConcat(a[1..], b, now);
    }
  }

  lemma CountInsert<K>(q: seq<Timer<K>>, t: Timer<K>, p: K -> bool)
    ensures Count(Insert(q, t), p) == Count(q, p) + if p(t.what) then 1 else 0
  {
    var i := Position(q, t.timeout);
    assert q == q[..i] + q[i..];
    CountConcat(q[..i], q[i..], p);
    CountConcat(q[..i] + [t], q[i..], p);
    CountConcat(q[..i], [t], p);
  }

  lemma CountDueInsert<K>(q: seq<Timer<K>>, t: Timer<K>, now: int)
    ensures CountDue(Insert(q, t), now) == CountDue(q, now) + if t.timeout <= now then 1 else 0
  {
    var i := Position(q, t.timeout);
    assert q == q[..i] + q[i..];
    CountDueConcat(q[..i], q[i..], now);
    CountDueConcat(q[..i] + [t], q[i..], now);
    CountDueConcat(q[..i], [t], now);
  }

  lemma CountRemoveAt<K>(q: seq<Timer<K>>, i: nat, p: K -> bool)
    requires i < |q|
    ensures Count(q[..i] + q[i + 1..], p) == Count(q, p) - if p(q[i].what) then 1 else 0
  {
    assert q == q[..i] + ([q[i]] + q[i + 1..]);
    CountConcat(q[..i], [q[i]] + q[i + 1..], p);
    CountConcat([q[i]], q[i + 1..], p);
    CountConcat(q[..i], q[i + 1..], p);
  }

  lemma {:induction false} CountZero<K>(q: seq<Timer<K>>, p: K -> bool)
    ensures Count(q, p) == 0 <==> First(q, p) == |q|
  {
    if q != [] && !p(q[0].what) {
      CountZero(q[1..], p);
    }
  }

  lemma CountRemoveFirst<K>(q: seq<Timer<K>>, p: K -> bool)
    ensures Count(RemoveFirst(q, p), p) == if Count(q, p) == 0 then 0 else Count(q, p) - 1
  {
    CountZero(q, p);
    var i := First(q, p);
    if i < |q| {
      CountRemoveAt(q, i, p);
    }
  }

  lemma InsertSorted<K>(q: seq<Timer<K>>, t: Timer<K>)
    requires Sorted(q)
    ensures Sorted(Insert(q, t))
  {
  }

  lemma RemoveSorted<K>(q: seq<Timer<K>>, p: K -> bool)
    requires Sorted(q)
    ensures Sorted(RemoveFirst(q, p))
  {
  }

  /** A timer later than the head goes behind it, so the iterator of scheduleTimer stays on the head. */
  lemma InsertBehindHead<K>(q: seq<Timer<K>>, t: Timer<K>)
    requires q != [] && q[0].timeout < t.timeout
    ensures Insert(q, t)[0] == q[0]
    ensures Insert(q, t)[1..] == Insert(q[1..], t)
  {
  }

  lemma PositionUnique<K>(q: seq<Timer<K>>, timeout: int, i: nat)
    requires i <= |q|
    requires forall j :: 0 <= j < i ==> q[j].timeout < timeout
    requires i < |q| ==> timeout <= q[i].timeout
    ensures i == Position(q, timeout)
  {
  }

  lemma FirstUnique<K>(q: seq<Timer<K>>, p: K -> bool, i: nat)
    requires i <= |q|
    requires forall j :: 0 <= j < i ==> !p(q[j].what)
    requires i < |q| ==> p(q[i].what)
    ensures i == First(q, p)
  {
  }

  /** isTimerSetNow on the first match of a search tells exactly whether that match is the head. */
  lemma LooksLikeHeadIffHead<K>(q: seq<Timer<K>>, p: K -> bool)
    requires First(q, p) < |q|
    ensures q[0].what == q[First(q, p)].what <==> First(q, p) == 0
  {
  }

  lemma InsertNoneDue<K>(q: seq<Timer<K>>, t: Timer<K>, now: int)
    requires NoneDue(q, now) && now < t.timeout
    ensures NoneDue(Insert(q, t), now)
  {
  }

  lemma RemoveNoneDue<K>(q: seq<Timer<K>>, p: K -> bool, now: int)
    requires NoneDue(q, now)
    ensures NoneDue(RemoveFirst(q, p), now)
  {
  }

  /** Never late: setting a timer keeps the alarm at or before the head. */
  lemma SetTimerNeverLate<K>(tq: Queue<K>, now: int, delay: int, what: K)
    requires AlarmOk(tq) && 0 < delay
    ensures AlarmOk(SetTimer(tq, now, delay, what))
  {
  }

  /**
   Both kinds of removal keep the alarm at or before the head, unless the head goes and the timer behind
   it is due already (when nothing is overdue that cannot be).
   */
  lemma RemoveNeverLate<K>(tq: Queue<K>, now: int, p: K -> bool)
    requires AlarmOk(tq) && Sorted(tq.list)
    ensures AlarmOk(RemoveArmed(tq, now, p))
            <==> First(tq.list, p) != 0 || |tq.list| <= 1 || now < tq.list[1].timeout
    ensures AlarmOk(RemoveQuiet(tq, p))
  {
  }

  /** The alarm is set for the head, neither later nor earlier. */
  ghost predicate AlarmExact<K>(tq: Queue<K>) {
    tq.list != [] ==> tq.alarm == Some(tq.list[0].timeout)
  }

  /**
   An alarm that is set for the head stays so when a timer is set, and when one is removed unless the head
   goes: then it is re-armed, if the next one is not due yet, or left as it is. At the end of scheduleTimer
   it is set for any head in the future.
   */
  lemma AlarmFollowsHead<K>(tq: Queue<K>, now: int, delay: int, what: K, p: K -> bool)
    requires Sorted(tq.list)
    ensures AlarmExact(tq) && 0 < delay ==> AlarmExact(SetTimer(tq, now, delay, what))
    ensures AlarmExact(tq) ==>
              (AlarmExact(RemoveArmed(tq, now, p))
               <==> First(tq.list, p) != 0 || |tq.list| <= 1 || now < tq.list[1].timeout)
    ensures AlarmExact(tq) ==>
              (AlarmExact(RemoveQuiet(tq, p))
               <==> First(tq.list, p) != 0 || |tq.list| <= 1 || tq.list[1].timeout == tq.list[0].timeout)
    ensures tq.list != [] && 0 < tq.list[0].timeout && now < tq.list[0].timeout ==> AlarmExact(Rearm(tq, now))
  {
  }
}
