/** The running kernel module: the linked list with its counter, and the netlink flag. */
module PacketQueue {
  import opened Base
  import opened Ods

  class KernelModule {
    /** The linked list from its head: list_add puts the newest packet first. */
    var list: seq<Packet>
    var len: int
    const maxlen: int := MAX_PACKET_NUMBER
    var transmissionFlag: bool
    var userPid: int
    var received: seq<Packet>
    var forwarded: seq<Packet>
    var dropped: seq<Packet>
    ghost var admitted: seq<Packet>
    ghost var left: seq<Packet>
    var log: seq<Act>

    ghost predicate Valid()
      reads this
    {
      len == |list| <= maxlen
    }

    ghost function State(): Kernel
      reads this
    {
      Kernel(Reversed(list), transmissionFlag, userPid, received, forwarded, dropped, admitted, left, log)
    }

    constructor ()
      ensures Valid() && State() == Ods.NO_PACKETS
    {
      list, len, transmissionFlag, userPid := [], 0, false, -1;
      received, forwarded, dropped, admitted, left, log := [], [], [], [], [], [];
    }

    method PendingIp(ip: Addr) returns (found: bool)
      ensures found == Pending(Reversed(list), ip)
    {
      var myHead := |list|;
      while myHead != 0
        invariant 0 <= myHead <= |list|
        invariant forall j :: myHead <= j < |list| ==> list[j].dst != ip
      {
        myHead := myHead - 1;
        if list[myHead].dst == ip {
          assert Reversed(list)[|list| - 1 - myHead].dst == ip;
          return true;
        }
      }
      found := false;
    }

    /** False when there is no memory or no room. */
    method PacketEnqueue(p: Packet, alloc: bool) returns (ok: bool)
      requires Valid()
      modifies this
      ensures Valid() && ok == (alloc && |old(State()).queue| < MAX_PACKET_NUMBER)
      ensures State() == if ok then old(State()).(queue := old(State()).queue + [p], admitted := old(admitted) + [p])
                         else old(State())
    {
      if !alloc {
        return false;
      }
      if len < maxlen {
        ReversedPush(p, list);
        list := [p] + list;
        len := len + 1;
        admitted := admitted + [p];
        return true;
      }
      ok := false;
    }

    /** Takes out the oldest match; without an address every packet matches. */
    method PacketDequeue(ip: Option<Addr>) returns (element: Option<Packet>)
      requires Valid()
      modifies this
      ensures Valid()
      ensures var q, i := old(State()).queue, Oldest(old(State()).queue, ip);
              && element == (if i < |q| then Some(q[i]) else None)
              && State() == if i < |q| then old(State()).(queue := q[..i] + q[i + 1..], left := old(left) + [q[i]])
                            else old(State())
    {
      var myHead := |list|;
      while myHead != 0
        invariant 0 <= myHead <= |list|
        invariant forall j :: myHead <= j < |list| ==> !Matches(list[j], ip)
      {
        myHead := myHead - 1;
        if Matches(list[myHead], ip) {
          var p := list[myHead];
          OldestIs(Reversed(list), ip, |list| - 1 - myHead);
          ReversedErase(list, myHead);
          list := list[..myHead] + list[myHead + 1..];
          len := len - 1;
          left := left + [p];
          return Some(p);
        }
      }
      OldestIs(Reversed(list), ip, |list|);
      element := None;
    }

    method ReceivePacket(p: Packet, alloc: bool)
      requires Valid()
      modifies this
      ensures Valid() && State() == Ods.ReceivePacket(old(State()), p, alloc)
    {
      received := received + [p];
      if !transmissionFlag {
        dropped := dropped + [p];
        return;
      }
      var pending := PendingIp(p.dst);
      if !pending {
        log := log + [Request(p.dst)];
      }
      var ok := PacketEnqueue(p, alloc);
      if !ok {
        dropped := dropped + [p];
        log := log + [EnqueueFail(p.dst)];
      }
    }

    method SendPacket(dst: Addr, v: Verdict)
      requires Valid()
      modifies this
      ensures Valid() && State() == Ods.SendPacket(old(State()), dst, v)
    {
      hide Drain, Oldest, Reversed;
      log := log + [Release(dst)];
      var element := Some(Packet(0, 0, dst, 0, false));
      while element.Some?
        invariant Valid()
        invariant element.Some? ==> Drain(State(), Some(dst), v) == Ods.SendPacket(old(State()), dst, v)
        invariant element.None? ==> State() == Ods.SendPacket(old(State()), dst, v)
        decreases if element.Some? then 1 + |list| else 0
      {
        DrainStep(State(), Some(dst), v);
        element := PacketDequeue(Some(dst));
        if element.Some? {
          if v == Drop {
            dropped := dropped + [element.value];
          } else {
            forwarded := forwarded + [element.value];
          }
        }
      }
    }

    method CleanupPacketQueue()
      requires Valid()
      modifies this
      ensures Valid() && State() == Ods.CleanupQueue(old(State())) && len == 0
    {
      hide Drain, Reversed;
      log := log + [Cleared];
      while len != 0
        invariant Valid()
        invariant Drain(State(), None, Drop) == Ods.CleanupQueue(old(State()))
        decreases |list|
      {
        DrainStep(State(), None, Drop);
        assert Oldest(State().queue, None) == 0;
        var element := PacketDequeue(None);
        dropped := dropped + [element.value];
      }
      DrainStep(State(), None, Drop);
    }

    method DealInitMsg(pid: int)
      requires Valid()
      modifies this
      ensures Valid() && State() == Ods.Step(old(State()), Init(pid))
    {
      userPid := pid;
      transmissionFlag := true;
    }

    method DealInfoMsg(ip: Addr, result: int)
      requires Valid()
      modifies this
      ensures Valid() && State() == Ods.Step(old(State()), Info(ip, result))
    {
      if result == IP_FOUND {
        SendPacket(ip, Accept);
      } else {
        SendPacket(ip, Drop);
      }
    }

    method DealExitMsg(pid: int)
      requires Valid()
      modifies this
      ensures Valid() && State() == Ods.Step(old(State()), Exit(pid))
    {
      userPid := pid;
      transmissionFlag := false;
    }
  }

  function Reversed<T>(s: seq<T>): (r: seq<T>)
    ensures |r| == |s| && forall i :: 0 <= i < |s| ==> r[i] == s[|s| - 1 - i]
  {
    seq(|s|, i requires 0 <= i < |s| => s[|s| - 1 - i])
  }

  lemma ReversedPush<T>(x: T, s: seq<T>)
    ensures Reversed([x] + s) == Reversed(s) + [x]
  {
  }

  lemma ReversedErase<T>(s: seq<T>, k: nat)
    requires k < |s|
    ensures var r, i := Reversed(s), |s| - 1 - k;
            r[i] == s[k] && Reversed(s[..k] + s[k + 1..]) == r[..i] + r[i + 1..]
  {
  }
}
