/** The three small lists of the daemon, updated in place. */
module Lists {
  import opened Base
  import opened Params
  import opened Node
  import Steps

  /** localRepair.cc: destinations that may be repaired locally; the list never holds one twice. */
  class LocalRepair {
    var list: seq<Addr>

    ghost predicate Valid()
      reads this
    {
      forall i, j :: 0 <= i < j < |list| ==> list[i] != list[j]
    }

    ghost function Contents(): set<Addr>
      reads this
    {
      set d | d in list
    }

    constructor ()
      ensures Valid() && Contents() == {}
    {
      list := [];
    }

    method FindInList(d: Addr) returns (iter: Option<nat>)
      ensures iter.Some? ==> iter.value < |list| && list[iter.value] == d
      ensures iter.None? ==> d !in list
    {
      var i := 0;
      while i != |list|
        invariant 0 <= i <= |list|
        invariant forall j :: 0 <= j < i ==> list[j] != d
      {
        if list[i] == d {
          return Some(i);
        }
        i := i + 1;
      }
      iter := None;
    }

    method AddToList(d: Addr)
      requires Valid()
      modifies this
      ensures Valid() && Contents() == old(Contents()) + {d}
    {
      var iter := FindInList(d);
      if iter.None? {
        list := list + [d];
      }
    }

    method DeleteAt(iter: nat)
      requires Valid() && iter < |list|
      modifies this
      ensures Valid() && Contents() == old(Contents()) - {old(list[iter])}
    {
      ghost var before := list;
      list := list[..iter] + list[iter + 1..];
      assert forall d :: d in before && d != before[iter] ==> d in list by {
        forall d | d in before && d != before[iter] ensures d in list {
          var k :| 0 <= k < |before| && before[k] == d;
          assert list[if k < iter then k else k - 1] == d;
        }
      }
    }

    method DeleteFromList(d: Addr)
      requires Valid()
      modifies this
      ensures Valid() && Contents() == old(Contents()) - {d}
    {
      var iter := FindInList(d);
      if iter.Some? {
        DeleteAt(iter.value);
      }
    }
  }

  /** rreqPendingList.cc: the RREQs no RREP has answered yet; a destination may occur more than once. */
  class RreqPendingList {
    var list: seq<Pending>

    constructor ()
      ensures list == []
    {
      list := [];
    }

    method InList(d: Addr) returns (iter: nat)
      ensures iter == Steps.FirstPending(list, d)
    {
      iter := 0;
      while iter != |list| && list[iter].rreq.dest != d
        invariant 0 <= iter <= |list|
        invariant forall j :: 0 <= j < iter ==> list[j].rreq.dest != d
      {
        iter := iter + 1;
      }
    }

    method AddToList(m: Rreq, retries: nat, ttl: Ttl)
      modifies this
      ensures list == old(list) + [Pending(m, retries, ttl)]
    {
      list := list + [Pending(m, retries, ttl)];
    }

    /** Writing through the pointer that inList returns. */
    method Set(iter: nat, p: Pending)
      requires iter < |list|
      modifies this
      ensures list == old(list)[iter := p]
    {
      list := list[iter := p];
    }

    method DeleteFromList(d: Addr)
      modifies this
      ensures var i := Steps.FirstPending(old(list), d);
              list == if i < |old(list)| then old(list)[..i] + old(list)[i + 1..] else old(list)
    {
      var iter := InList(d);
      if iter != |list| {
        list := list[..iter] + list[iter + 1..];
      }
    }
  }

  datatype FwEntry = FwEntry(src: Addr, id: u32, life: int)

  /** fwRreqList.cc: the floods handled recently. */
  class FwRreqList {
    var list: seq<FwEntry>

    ghost predicate Valid()
      reads this
    {
      Distinct(list)
    }

    /** Which floods are remembered, and until when. */
    ghost function Contents(): map<(Addr, u32), int>
      reads this
    {
      AsMap(list)
    }

    constructor ()
      ensures Valid() && Contents() == map[]
    {
      list := [];
    }

    method InList(src: Addr, id: u32) returns (found: bool)
      requires Valid()
      ensures found <==> (src, id) in Contents()
    {
      AsMapKeys(list);
      var i := 0;
      while i != |list|
        invariant 0 <= i <= |list|
        invariant forall j :: 0 <= j < i ==> (list[j].src, list[j].id) != (src, id)
      {
        if list[i].src == src && list[i].id == id {
          return true;
        }
        i := i + 1;
      }
      found := false;
    }

    method AddToList(src: Addr, id: u32, now: int)
      requires Valid()
      modifies this
      ensures Valid()
      ensures Contents() == if (src, id) in old(Contents()) then old(Contents())
                            else old(Contents())[(src, id) := now + PATH_TRAVERSAL_TIME]
    {
      var found := InList(src, id);
      AsMapKeys(list);
      if !found {
        AsMapAppend(list, FwEntry(src, id, now + PATH_TRAVERSAL_TIME));
        list := list + [FwEntry(src, id, now + PATH_TRAVERSAL_TIME)];
      }
    }

    /** Erases expired entries while iterating. */
    method UpdateEntries(now: int)
      requires Valid()
      modifies this
      ensures Valid() && Contents() == Steps.LiveFw(old(Contents()), now)
    {
      hide Fresh, AsMap, Distinct;
      ghost var before, pre, seen := list, [], 0;
      var i := 0;
      FreshNone(before, now);
      while i != |list|
        invariant 0 <= seen <= |before|
        invariant list == pre + before[seen..]
        invariant i == |pre|
        invariant pre == Fresh(before[..seen], now)
        decreases |before| - seen
      {
        FreshStep(before, seen, now);
        CutAt(pre, before, seen);
        if list[i].life <= now {
          list := list[..i] + list[i + 1..];
        } else {
          pre := pre + [list[i]];
          i := i + 1;
        }
        seen := seen + 1;
      }
      assert before[..seen] == before && list == pre;
      FreshDistinct(before, now);
      FreshMap(before, now);
    }
  }

  function AsMap(l: seq<FwEntry>): map<(Addr, u32), int> {
    if l == [] then map[] else AsMap(l[..|l| - 1])[(l[|l| - 1].src, l[|l| - 1].id) := l[|l| - 1].life]
  }

  ghost predicate Distinct(l: seq<FwEntry>) {
    forall i, j :: 0 <= i < j < |l| ==> (l[i].src, l[i].id) != (l[j].src, l[j].id)
  }

  lemma AsMapAppend(l: seq<FwEntry>, e: FwEntry)
    ensures AsMap(l + [e]) == AsMap(l)[(e.src, e.id) := e.life]
  {
  }

  lemma {:induction false} AsMapKeys(l: seq<FwEntry>)
    requires Distinct(l)
    ensures forall k :: k in AsMap(l) <==> exists i :: 0 <= i < |l| && (l[i].src, l[i].id) == k
    ensures forall i :: 0 <= i < |l| ==> AsMap(l)[(l[i].src, l[i].id)] == l[i].life
  {
    if l != [] {
      AsMapKeys(l[..|l| - 1]);
    }
  }

  /** The entries of l that are not expired. */
  function Fresh(l: seq<FwEntry>, now: int): seq<FwEntry> {
    if l == [] then []
    else Fresh(l[..|l| - 1], now) + if now < l[|l| - 1].life then [l[|l| - 1]] else []
  }

  lemma FreshStep(l: seq<FwEntry>, k: nat, now: int)
    requires k < |l|
    ensures Fresh(l[..k + 1], now) == Fresh(l[..k], now) + if now < l[k].life then [l[k]] else []
  {
    assert l[..k + 1][..k] == l[..k];
  }

  lemma FreshNone(l: seq<FwEntry>, now: int)
    ensures Fresh(l[..0], now) == [] && l == [] + l[0..]
  {
  }

  /** The list around the iterator: pre has been kept, l[k] is looked at, the rest is untouched. */
  lemma CutAt(pre: seq<FwEntry>, l: seq<FwEntry>, k: nat)
    requires k <= |l|
    ensures var cur := pre + l[k..];
            k < |l| ==> cur[|pre|] == l[k] && cur[..|pre|] + cur[|pre| + 1..] == pre + l[k + 1..]
                        && cur == pre + [l[k]] + l[k + 1..]
  {
  }

  lemma {:induction false} FreshDistinct(l: seq<FwEntry>, now: int)
    requires Distinct(l)
    ensures Distinct(Fresh(l, now)) && forall e :: e in Fresh(l, now) ==> e in l
  {
    if l != [] {
      var k, e := l[..|l| - 1], l[|l| - 1];
      FreshDistinct(k, now);
      forall i | 0 <= i < |Fresh(k, now)| ensures (Fresh(k, now)[i].src, Fresh(k, now)[i].id) != (e.src, e.id) {
        assert Fresh(k, now)[i] in k;
      }
    }
  }

  lemma LiveFwUpdate(m: map<(Addr, u32), int>, k: (Addr, u32), life: int, now: int)
    requires k !in m
    ensures Steps.LiveFw(m[k := life], now)
         == if now < life then Steps.LiveFw(m, now)[k := life] else Steps.LiveFw(m, now)
  {
  }

  lemma {:induction false} FreshMap(l: seq<FwEntry>, now: int)
    requires Distinct(l)
    ensures AsMap(Fresh(l, now)) == Steps.LiveFw(AsMap(l), now)
  {
    if l != [] {
      var k, e := l[..|l| - 1], l[|l| - 1];
      FreshMap(k, now);
      AsMapKeys(k);
      LiveFwUpdate(AsMap(k), (e.src, e.id), e.life, now);
      AsMapAppend(Fresh(k, now), e);
      assert Fresh(k, now) + [] == Fresh(k, now);
    }
  }
}
