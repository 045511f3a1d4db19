/** The mutable timer queue; what each method does to it is a function of module Timers. */
module TimerQueues {
  import opened Base
  import Timers

  class TimerQueue<K(==)> {
    var timerQ: seq<Timers.Timer<K>>
    var alarm: Option<int>

    ghost function State(): Timers.Queue<K>
      reads this
    {
      Timers.Queue(timerQ, alarm)
    }

    constructor ()
      ensures State() == Timers.Queue([], None)
    {
      timerQ := [];
      alarm := None;
    }

    method TimerAdd(now: int, delay: int, what: K)
      modifies this
      ensures State() == Timers.AddTimer(old(State()), now, delay, what)
    {
      var timerOb := Timers.Timer(now + delay, what);
      var iter := 0;
      while iter != |timerQ| && timerOb.timeout > timerQ[iter].timeout
        invariant 0 <= iter <= |timerQ|
        invariant forall j :: 0 <= j < iter ==> timerQ[j].timeout < timerOb.timeout
      {
        iter := iter + 1;
      }
      Timers.PositionUnique(timerQ, timerOb.timeout, iter);
      timerQ := timerQ[..iter] + [timerOb] + timerQ[iter..];
    }

    method SetRealTimer(now: int, delay: int)
      modifies this
      ensures State() == old(State()).(alarm := Timers.Arm(now, delay))
    {
      alarm := Timers.Arm(now, delay);
    }

    method SetLowestTimer(now: int, delay: int)
      requires timerQ != []
      modifies this
      ensures timerQ == old(timerQ)
      ensures alarm == if timerQ[0].timeout == now + delay then Timers.Arm(now, delay) else old(alarm)
    {
      if timerQ[0].timeout == now + delay {
        SetRealTimer(now, delay);
      }
    }

    method SetTimer(now: int, delay: int, what: K)
      modifies this
      ensures State() == Timers.SetTimer(old(State()), now, delay, what)
    {
      TimerAdd(now, delay, what);
      SetLowestTimer(now, delay);
    }

    method FindFirst(p: K -> bool) returns (iter: nat)
      ensures iter == Timers.First(timerQ, p)
    {
      iter := 0;
      while iter != |timerQ| && !p(timerQ[iter].what)
        invariant 0 <= iter <= |timerQ|
        invariant forall j :: 0 <= j < iter ==> !p(timerQ[j].what)
      {
        iter := iter + 1;
      }
      Timers.FirstUnique(timerQ, p, iter);
    }

    method IsTimerSetNow(iter: nat) returns (b: bool)
      requires iter < |timerQ|
      ensures b == (timerQ[0].what == timerQ[iter].what)
    {
      b := timerQ[0].what == timerQ[iter].what;
    }

    /** removeRREQTimer and removeRREP_ACK_Timer; returns the removed timer's data. */
    method RemoveArmed(now: int, p: K -> bool) returns (removed: Option<K>)
      modifies this
      ensures State() == Timers.RemoveArmed(old(State()), now, p)
      ensures removed == var i := Timers.First(old(timerQ), p);
                         if i < |old(timerQ)| then Some(old(timerQ)[i].what) else None
    {
      var iter := FindFirst(p);
      if iter == |timerQ| {
        return None;
      }
      var now_set := IsTimerSetNow(iter);
      if now_set && iter + 1 != |timerQ| {
        SetRealTimer(now, timerQ[iter + 1].timeout - now);
      }
      removed := Some(timerQ[iter].what);
      timerQ := timerQ[..iter] + timerQ[iter + 1..];
    }

    /** removeActiveRouteTimer: the alarm is left alone. */
    method RemoveQuiet(p: K -> bool)
      modifies this
      ensures State() == Timers.RemoveQuiet(old(State()), p)
    {
      var iter := FindFirst(p);
      if iter != |timerQ| {
        timerQ := timerQ[..iter] + timerQ[iter + 1..];
      }
    }

    /** SIGALRM uses the alarm up. */
    method AlarmFires()
      modifies this
      ensures State() == old(State()).(alarm := None)
    {
      alarm := None;
    }

    /** The erase of scheduleTimer, behind the handler of the head. */
    method EraseHead()
      requires timerQ != []
      modifies this
      ensures timerQ == old(timerQ)[1..] && alarm == old(alarm)
    {
      timerQ := timerQ[1..];
    }

    method EraseAt(iter: nat)
      requires iter < |timerQ|
      modifies this
      ensures timerQ == old(timerQ)[..iter] + old(timerQ)[iter + 1..] && alarm == old(alarm)
    {
      timerQ := timerQ[..iter] + timerQ[iter + 1..];
    }

    /** resetRebootTimer on the timer it found; looksSet tells what isSetNow answers. */
    method Postpone(iter: nat, now: int, delay: int, looksSet: bool)
      requires iter < |timerQ|
      modifies this
      ensures timerQ == old(timerQ)[iter := old(timerQ)[iter].(timeout := now + delay)]
      ensures alarm == if looksSet then Timers.Arm(now, now + delay) else old(alarm)
    {
      timerQ := timerQ[iter := timerQ[iter].(timeout := now + delay)];
      if looksSet {
        SetRealTimer(now, timerQ[iter].timeout);
      }
    }

    /** The end of scheduleTimer. */
    method Rearm(now: int)
      modifies this
      ensures State() == Timers.Rearm(old(State()), now)
    {
      if timerQ != [] && 0 < timerQ[0].timeout && now < timerQ[0].timeout {
        SetRealTimer(now, timerQ[0].timeout - now);
      }
    }
  }
}
