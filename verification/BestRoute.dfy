/** What a series of route updates for one destination leaves in the table. */
module BestRoute {
  import opened Base
  import opened Node
  import opened Steps

  /** A route on offer: its hop count is the received one plus one. */
  datatype Offer = Offer(seqNum: u32, hop: int, next: Addr)

  /** a is newer than b, or as new and shorter. */
  predicate Beats(a: Offer, b: Offer) {
    a.seqNum > b.seqNum || (a.seqNum == b.seqNum && a.hop < b.hop)
  }

  /** The first of the best offers. */
  ghost predicate FirstBest(offers: seq<Offer>, i: nat) {
    && i < |offers|
    && (forall j :: 0 <= j < |offers| ==> !Beats(offers[j], offers[i]))
    && (forall j :: 0 <= j < i ==> Beats(offers[i], offers[j]))
  }

  /** The table after all updates for dst, oldest first; lives gives the lifetime each one carries. */
  function Apply(t: Table, dst: Addr, offers: seq<Offer>, lives: int -> int, keep: bool): Table {
    if offers == [] then t
    else
      var k := |offers| - 1;
      RouteTable(Apply(t, dst, offers[..k], lives, keep), dst, offers[k].seqNum, offers[k].hop, offers[k].next,
                 lives(k), keep)
  }

  ghost predicate Holds(t: Table, dst: Addr, o: Offer) {
    IsActive(t, dst) && t[dst].seqNum == o.seqNum && t[dst].hop == o.hop && t[dst].next == o.next
  }

  /** The offers that count: an active entry first, then the updates. */
  function AllOffers(t: Table, dst: Addr, offers: seq<Offer>): seq<Offer> {
    (if IsActive(t, dst) then [Offer(t[dst].seqNum, t[dst].hop, t[dst].next)] else []) + offers
  }

  /** Every update carries a received hop count, which is a byte, plus one. */
  predicate Received(offers: seq<Offer>) {
    forall j :: 0 <= j < |offers| ==> 1 <= offers[j].hop <= 256
  }

  /** The first of the offers with the highest sequence number. */
  ghost predicate FirstNewest(offers: seq<Offer>, f: nat) {
    && f < |offers|
    && (forall j :: 0 <= j < |offers| ==> offers[j].seqNum <= offers[f].seqNum)
    && (forall j :: 0 <= j < f ==> offers[j].seqNum < offers[f].seqNum)
  }

  /** The entry once 256 hops were stored as 0: nothing of the same age is shorter. */
  ghost predicate Stuck(t: Table, dst: Addr, o: Offer) {
    IsActive(t, dst) && t[dst].seqNum == o.seqNum && t[dst].hop == 0 && t[dst].next == o.next
  }

  /** One update: the better of entry and offer is left, unless a better offer comes over 256 hops. */
  lemma UpdateHoldsIff(t: Table, dst: Addr, best: Offer, o: Offer, life: int, keep: bool)
    requires Holds(t, dst, best) && 1 <= o.hop <= 256
    ensures Holds(RouteTable(t, dst, o.seqNum, o.hop, o.next, life, keep), dst, if Beats(o, best) then o else best)
        <==> o.hop <= 255 || !Beats(o, best)
  {
  }

  lemma FirstBestGrows(all: seq<Offer>, o: Offer, b: nat)
    requires FirstBest(all, b)
    ensures FirstBest(all + [o], if Beats(o, all[b]) then |all| else b)
  {
  }

  lemma FirstNewestGrows(all: seq<Offer>, o: Offer, f: nat)
    requires FirstNewest(all, f)
    ensures FirstNewest(all + [o], if o.seqNum > all[f].seqNum then |all| else f)
  {
  }

  /** What the table holds after the offers all, of which b is the best and f the first newest. */
  ghost predicate Outcome(t: Table, dst: Addr, all: seq<Offer>, b: nat, f: nat) {
    && FirstBest(all, b) && FirstNewest(all, f)
    && if all[f].hop <= 255 then Holds(t, dst, all[b]) else Stuck(t, dst, all[f])
  }

  lemma OutcomeGrows(t: Table, dst: Addr, all: seq<Offer>, b: nat, f: nat, o: Offer, life: int, keep: bool)
    requires Outcome(t, dst, all, b, f) && 1 <= o.hop <= 256
    ensures Outcome(RouteTable(t, dst, o.seqNum, o.hop, o.next, life, keep), dst, all + [o],
                    if Beats(o, all[b]) then |all| else b, if o.seqNum > all[f].seqNum then |all| else f)
  {
    FirstBestGrows(all, o, b);
    FirstNewestGrows(all, o, f);
    assert !Beats(all[f], all[b]) && all[b].seqNum <= all[f].seqNum;
    assert (all + [o])[|all|] == o && (all + [o])[b] == all[b] && (all + [o])[f] == all[f];
    hide FirstBest, FirstNewest;
  }

  lemma {:induction false} ApplyOutcome(t: Table, dst: Addr, offers: seq<Offer>, lives: int -> int, keep: bool)
    returns (b: nat, f: nat)
    requires Received(offers) && AllOffers(t, dst, offers) != []
    ensures Outcome(Apply(t, dst, offers, lives, keep), dst, AllOffers(t, dst, offers), b, f)
  {
    if |AllOffers(t, dst, offers)| == 1 {
      b, f := 0, 0;
    } else {
      var k := |offers| - 1;
      var before := AllOffers(t, dst, offers[..k]);
      assert AllOffers(t, dst, offers) == before + [offers[k]];
      b, f := ApplyOutcome(t, dst, offers[..k], lives, keep);
      OutcomeGrows(Apply(t, dst, offers[..k], lives, keep), dst, before, b, f, offers[k], lives(k), keep);
      hide Outcome, RouteTable;
      b, f := if Beats(offers[k], before[b]) then |before| else b,
              if offers[k].seqNum > before[f].seqNum then |before| else f;
    }
  }

  lemma SameBest(all: seq<Offer>, b: nat, b': nat, f: nat, f': nat)
    requires FirstBest(all, b) && FirstBest(all, b') && FirstNewest(all, f) && FirstNewest(all, f')
    ensures b == b' && f == f' && f <= b
  {
  }

  /**
   Any series of updates, from no entry or an inactive one, or from an active one (which counts as
   the first offer), leaves the lexicographically best offer as it first arrived, if and only if the
   first offer with the highest sequence number did not come over 256 hops. Otherwise that first
   one stays, with its hop count stored as 0.
   */
  lemma {:induction false} BestOfferWinsIff(
    t: Table, dst: Addr, offers: seq<Offer>, lives: int -> int, keep: bool, b: nat, f: nat)
    requires Received(offers)
    requires FirstBest(AllOffers(t, dst, offers), b) && FirstNewest(AllOffers(t, dst, offers), f)
    ensures var all, t' := AllOffers(t, dst, offers), Apply(t, dst, offers, lives, keep);
            && (Holds(t', dst, all[b]) <==> all[f].hop <= 255)
            && (all[f].hop > 255 ==> Stuck(t', dst, all[f]))
  {
    var b', f' := ApplyOutcome(t, dst, offers, lives, keep);
    SameBest(AllOffers(t, dst, offers), b, b', f, f');
  }

  /** There always is a best offer and a first newest one. */
  lemma {:induction false} BestOfferWins(t: Table, dst: Addr, offers: seq<Offer>, lives: int -> int, keep: bool)
    returns (b: nat, f: nat)
    requires Received(offers) && AllOffers(t, dst, offers) != []
    ensures var all, t' := AllOffers(t, dst, offers), Apply(t, dst, offers, lives, keep);
            && FirstBest(all, b) && FirstNewest(all, f)
            && (Holds(t', dst, all[b]) <==> all[f].hop <= 255)
  {
    b, f := ApplyOutcome(t, dst, offers, lives, keep);
    BestOfferWinsIff(t, dst, offers, lives, keep, b, f);
  }

  /** For example: 256 hops are stored as 0, and a shorter route of the same age is refused. */
  lemma WrappedHopWins(t: Table, dst: Addr, lives: int -> int, keep: bool)
    requires dst !in t
    ensures var offers := [Offer(5, 256, 1), Offer(5, 2, 2)];
            FirstBest(offers, 1) && Stuck(Apply(t, dst, offers, lives, keep), dst, offers[0])
  {
    var offers := [Offer(5, 256, 1), Offer(5, 2, 2)];
    assert AllOffers(t, dst, offers) == offers;
    BestOfferWinsIff(t, dst, offers, lives, keep, 1, 0);
  }
}
