/** One periodic pass of refreshEntries over the whole table. */
module Refresh {
  import opened Base
  import opened Params
  import opened Node
  import opened Steps
  import opened Effects

  // ---- what becomes of each entry ----

  ghost predicate ErasedIn(t0: Table, t: Table, now: int, j: Addr)
    requires j in t0
  {
    j !in t && t0[j].life <= now && t0[j].hop == INFINITY
  }

  ghost predicate KeptIn(t0: Table, t: Table, now: int, j: Addr)
    requires j in t0
  {
    j in t && CoreOf(t[j]) == CoreOf(t0[j]) && (t[j].life == t0[j].life || now < t[j].life)
  }

  ghost predicate InvalidatedIn(t0: Table, t: Table, now: int, j: Addr)
    requires j in t0
  {
    j in t && t0[j].hop != INFINITY && CoreOf(t[j]) == CoreOf(Invalidate(t0[j], now)) && now < t[j].life
  }

  /** Nothing else can happen to an entry in one pass. */
  ghost predicate Fate(t0: Table, t: Table, now: int, j: Addr)
    requires j in t0
  {
    ErasedIn(t0, t, now, j) || KeptIn(t0, t, now, j) || InvalidatedIn(t0, t, now, j)
  }

  lemma ProlongFate(t0: Table, t: Table, k: Addr, life: int, now: int, j: Addr)
    requires j in t0 && k in t && now < life && Fate(t0, t, now, j)
    ensures Fate(t0, Prolong(t, k, life), now, j)
  {
  }

  lemma KillFate(t0: Table, n: Node, k: Addr, now: int, j: Addr)
    requires j in t0 && k in n.table && n.table[k].hop != INFINITY && Fate(t0, n.table, now, j)
    ensures Fate(t0, Kill(n, Dead(n.table, k), now).table, now, j)
  {
  }

  lemma EraseFate(t0: Table, t: Table, k: Addr, now: int, j: Addr)
    requires j in t0 && k in t && k in t0 && t[k].life <= now && t[k].hop == INFINITY
    requires Fate(t0, t, now, k) && Fate(t0, t, now, j)
    ensures Fate(t0, t - {k}, now, j)
  {
  }

  /** Visiting k keeps every entry within its possible fates. */
  lemma VisitFate(t0: Table, n: Node, k: Addr, env: Env, j: Addr)
    requires j in t0 && (k in n.table ==> k in t0 && Fate(t0, n.table, env.now, k)) && Fate(t0, n.table, env.now, j)
    ensures Fate(t0, RefreshOne(n, k, env).table, env.now, j)
  {
    hide IdleTime, Fate, Dead, Kill, Prolong;
    var t := n.table;
    if k in t && t[k].life <= env.now {
      if t[k].hop == INFINITY {
        EraseFate(t0, t, k, env.now, j);
      } else if IdleTime(t, k, env) < ACTIVE_ROUTE_TIMEOUT {
        ProlongFate(t0, t, k, env.now - IdleTime(t, k, env) + ACTIVE_ROUTE_TIMEOUT, env.now, j);
      } else {
        KillFate(t0, n, k, env.now, j);
      }
    }
  }

  ghost predicate Unexpired(t: Table, now: int, j: Addr) {
    j in t ==> now < t[j].life
  }

  lemma KillLife(n: Node, k: Addr, now: int, j: Addr)
    requires k in n.table && (j == k || Unexpired(n.table, now, j))
    ensures Unexpired(Kill(n, Dead(n.table, k), now).table, now, j)
  {
  }

  /** Visiting k leaves k unexpired, if it survives, and expires nothing else. */
  lemma VisitLife(n: Node, k: Addr, env: Env, j: Addr)
    requires j == k || Unexpired(n.table, env.now, j)
    ensures Unexpired(RefreshOne(n, k, env).table, env.now, j)
  {
    hide IdleTime, Kill, Dead;
    if k in n.table {
      KillLife(n, k, env.now, j);
    }
  }

  lemma {:induction false} PassFate(t0: Table, n: Node, ks: seq<Addr>, env: Env)
    requires n.table.Keys <= t0.Keys && forall j :: j in t0 ==> Fate(t0, n.table, env.now, j)
    ensures forall j :: j in t0 ==> Fate(t0, RefreshAll(n, ks, env).table, env.now, j)
    decreases ks
  {
    hide RefreshOne, Fate;
    if ks != [] {
      var n1 := RefreshOne(n, ks[0], env);
      RefreshOneFrame(n, ks[0], env);
      forall j | j in t0 ensures Fate(t0, n1.table, env.now, j) {
        VisitFate(t0, n, ks[0], env, j);
      }
      PassFate(t0, n1, ks[1..], env);
    }
  }

  lemma {:induction false} PassLife(n: Node, ks: seq<Addr>, env: Env, j: Addr)
    requires j in ks || Unexpired(n.table, env.now, j)
    ensures Unexpired(RefreshAll(n, ks, env).table, env.now, j)
    decreases ks
  {
    hide RefreshOne, Unexpired;
    if ks != [] {
      if j == ks[0] || Unexpired(n.table, env.now, j) {
        VisitLife(n, ks[0], env, j);
      }
      PassLife(RefreshOne(n, ks[0], env), ks[1..], env, j);
    }
  }

  /**
   The whole pass: no surviving entry is expired; an entry is erased only if it came in expired
   with an infinite hop count, so nothing is erased in the pass that invalidates it; and an entry
   that is neither erased nor as it came in has been invalidated by the book.
   */
  lemma {:induction false} RefreshPass(n: Node, env: Env)
    ensures var t, t' := n.table, RefreshEntries(n, env).table;
            && t'.Keys <= t.Keys
            && (forall j :: j in t' ==> env.now < t'[j].life)
            && (forall j :: j in t && j !in t' ==> t[j].life <= env.now && t[j].hop == INFINITY)
            && (forall j :: j in t' && CoreOf(t'[j]) != CoreOf(t[j])
                 ==> t[j].hop != INFINITY && CoreOf(t'[j]) == CoreOf(Invalidate(t[j], env.now)))
  {
    hide RefreshAll;
    var t, ks := n.table, Keys(n.table.Keys);
    PassFate(t, n, ks, env);
    RefreshAllFrame(n, ks, env);
    var t' := RefreshAll(n, ks, env).table;
    forall j | j in t' ensures env.now < t'[j].life {
      PassLife(n, ks, env, j);
    }
    forall j | j in t && j !in t' ensures t[j].life <= env.now && t[j].hop == INFINITY {
      assert Fate(t, t', env.now, j);
    }
    forall j | j in t' && CoreOf(t'[j]) != CoreOf(t[j])
      ensures t[j].hop != INFINITY && CoreOf(t'[j]) == CoreOf(Invalidate(t[j], env.now))
    {
      assert Fate(t, t', env.now, j);
    }
  }

  // ---- next hops ----

  ghost predicate IsNeighbor(t: Table, k: Addr) {
    k in t && t[k].hop == 1 && t[k].next == k
  }

  /** Every live route goes through a live neighbour, and one-hop entries are neighbours. */
  ghost predicate NextHopsOk(t: Table) {
    forall k :: IsLive(t, k) ==> IsNeighbor(t, t[k].next) && (t[k].hop == 1 ==> t[k].next == k)
  }

  lemma KillNextHops(n: Node, k: Addr, now: int)
    requires NextHopsOk(n.table) && IsLive(n.table, k)
    ensures NextHopsOk(Kill(n, Dead(n.table, k), now).table)
  {
  }

  lemma EraseNextHops(t: Table, k: Addr)
    requires NextHopsOk(t) && k in t && t[k].hop == INFINITY
    ensures NextHopsOk(t - {k})
  {
  }

  lemma ProlongNextHops(t: Table, k: Addr, life: int)
    requires NextHopsOk(t) && k in t
    ensures NextHopsOk(Prolong(t, k, life))
  {
    var t' := Prolong(t, k, life);
    forall j | IsLive(t', j) ensures IsNeighbor(t', t'[j].next) && (t'[j].hop == 1 ==> t'[j].next == j) {
      assert IsLive(t, j) && IsNeighbor(t, t[j].next);
    }
  }

  lemma VisitNextHops(n: Node, k: Addr, env: Env)
    requires NextHopsOk(n.table)
    ensures NextHopsOk(RefreshOne(n, k, env).table)
  {
    hide IdleTime, NextHopsOk, Kill, Dead, Prolong;
    var t := n.table;
    if k in t && t[k].life <= env.now {
      if t[k].hop == INFINITY {
        EraseNextHops(t, k);
      } else if IdleTime(t, k, env) < ACTIVE_ROUTE_TIMEOUT {
        ProlongNextHops(t, k, env.now - IdleTime(t, k, env) + ACTIVE_ROUTE_TIMEOUT);
      } else {
        KillNextHops(n, k, env.now);
      }
    }
  }

  lemma {:induction false} PassNextHops(n: Node, ks: seq<Addr>, env: Env)
    requires NextHopsOk(n.table)
    ensures NextHopsOk(RefreshAll(n, ks, env).table)
    decreases ks
  {
    hide NextHopsOk, RefreshOne;
    if ks != [] {
      VisitNextHops(n, ks[0], env);
      PassNextHops(RefreshOne(n, ks[0], env), ks[1..], env);
    }
  }

  /**
   The pass keeps next hops sound; in particular a neighbour that ends up invalid has taken every
   other entry routed through it along, and the lookup of the next hop of a used route, at any
   point of the pass, finds an entry.
   */
  lemma {:induction false} RefreshKeepsNextHops(n: Node, env: Env, m: Addr, seen: seq<Addr>, rest: seq<Addr>, k: Addr)
    requires NextHopsOk(n.table) && Keys(n.table.Keys) == seen + rest
    ensures NextHopsOk(RefreshEntries(n, env).table)
    ensures var t' := RefreshEntries(n, env).table;
            !IsLive(t', m) ==> forall j :: j in t' && t'[j].next == m ==> t'[j].hop == INFINITY
    ensures var t1 := RefreshAll(n, seen, env).table; IsLive(t1, k) ==> t1[k].next in t1
  {
    PassNextHops(n, Keys(n.table.Keys), env);
    PassNextHops(n, seen, env);
    var t' := RefreshEntries(n, env).table;
    forall j | j in t' && t'[j].next == m && !IsLive(t', m) ensures t'[j].hop == INFINITY {
      assert IsLive(t', j) ==> IsNeighbor(t', t'[j].next);
    }
  }

  /** With sound next hops, an entry that comes in expired with an infinite hop count is erased. */
  lemma {:induction false} RefreshErases(n: Node, env: Env, j: Addr)
    requires NextHopsOk(n.table) && j in n.table && n.table[j].life <= env.now && n.table[j].hop == INFINITY
    ensures j !in RefreshEntries(n, env).table
  {
    PassErases(n, Keys(n.table.Keys), env, j);
  }

  lemma {:induction false} PassErases(n: Node, ks: seq<Addr>, env: Env, j: Addr)
    requires NextHopsOk(n.table)
    requires j in n.table ==> j in ks && n.table[j].life <= env.now && n.table[j].hop == INFINITY
    ensures j !in RefreshAll(n, ks, env).table
    decreases ks
  {
    hide RefreshOne;
    if ks != [] {
      VisitNextHops(n, ks[0], env);
      RefreshOneFrame(n, ks[0], env);
      if j in n.table {
        VisitSparesInfinite(n, ks[0], env, j);
      }
      hide NextHopsOk;
      PassErases(RefreshOne(n, ks[0], env), ks[1..], env, j);
    }
  }

  lemma VisitSparesInfinite(n: Node, k: Addr, env: Env, j: Addr)
    requires NextHopsOk(n.table) && j in n.table && n.table[j].life <= env.now && n.table[j].hop == INFINITY
    ensures var t' := RefreshOne(n, k, env).table;
            if k == j then j !in t' else j in t' && t'[j] == n.table[j]
  {
    hide IdleTime, Invalidate;
    assert k in n.table && n.table[k].hop != INFINITY ==> IsLive(n.table, k) && n.table[k].next != j;
  }
}
