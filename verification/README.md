# Verified model of the AODV daemon, the neighbour discovery library and the on-demand queue

The project models five parts of the repository in Dafny and proves what they are for.

* **The AODV routing daemon** (`LA_Client_aodv`). Module `Node` is the daemon's whole state as a value:
  routing table, kernel routes, local-repair set, pending RREQs, remembered floods, timer queue, packets
  sent and what was said to the Local Agent. Module `Steps` says what every routine does to that state.
  Class `Aodv.Daemon`, with the lists of module `Lists` and the queue of module `TimerQueues`, updates
  the same state in place with the loops and branches of the source, and every method is proved to
  compute exactly the function of `Steps` of the same name. The theorems are about those functions:
  `Routes`, `Refresh`, `NextHops`, `BestRoute`, `Lookups`, `Upkeep` (the table), `Messages`, `Learning`,
  `Precursors`, `Requests` (what a message or a request sends, teaches and answers), `Schedule`, `Alarms`,
  `Heartbeat` (the timers), `Discoveries`, `Runs` (whole runs of one daemon), `Discovery`, `ErrorCascade`,
  `Floods`, `Chain` (networks of daemons).
* **The timer queue** (`Timers`, `TimerQueues`), shared by the daemon and neighbour discovery.
* **Neighbour discovery** (`lib/ND`): `Neighbors` (steps), `NeighborRuns` (the refinement of a ledger that
  keeps the last hello of every sender), `NeighborHellos` (the sending side), `NeighborDiscovery` (the class).
* **The on-demand packet queue** (`kernel_module/ODS_kernel`): `Ods` (steps and theorems), `PacketQueue`
  (the linked list and its counter).
* **Wire forms**: `Bytes`, `RerrCodec`, `HelloCodec` and `DottedAddress`.

A message, a request of the Local Agent, or a SIGALRM is one atomic step with one reading of the clock.
Times are unbounded integers in milliseconds; 8-bit hop counts and 32-bit sequence numbers wrap as in C++
(`U8`, `U32`), and a relative alarm delay below zero wraps to 64 bits (`Timers.Arm`). The idle times asked
from the route module, the fields a constructor leaves uninitialised, and the address read through an
iterator at `end()` are inputs of a step (`Node.Env`). The kernel's routes are a map from destination to
gateway, and replies to the Local Agent are a log that also notes whether the kernel had the route at that
moment. `del_kroute` is modelled by its intended effect; the socket it needs is never opened
(LA_Client_aodv/aodv.cc:64-70). Conditions of the form `it->x && it != end()` are modelled with the end
test first.

What the proofs found about the code, each with its exact condition:

* A received hop count of 59 (INFINITY - 1) that is taken stores an active route that looks expired.
  `Routes.ReceiveKeepsIff` says for every message, during reboot and after, exactly when routes, kernel and
  repair list stay in agreement. Once the lifetime has run out, the next refresh pass erases the entry and
  leaves the kernel route (`Lookups.InfiniteRouteStays`). `Runs.RunInvariant` assumes that no received hop
  count is 59; the network diameter is 35.
* A received hop count of 255 is stored as 0, and no route of the same age replaces it; a newer one does. The
  best of a series of offers is left if and only if the first offer with the highest sequence number did not
  come that way (`BestRoute.BestOfferWinsIff`; one step: `BestRoute.UpdateHoldsIff`; an instance:
  `BestRoute.WrappedHopWins`).
* Four kinds of event can break "every live next hop is a live neighbour": a RREQ or RREP that claims one hop
  for a node that is not its sender, or moves a node which live routes go through; a RERR that lists its sender
  but not every live destination through it; local repair giving up a node that live routes go through; and a
  timeout that revives an infinite entry with a last hop count that does not fit its next hop.
  `NextHops.ReceiveKeepsNextHopsIff` and `NextHops.HandleKeepsNextHopsIff` say exactly when.
* The next-hop lookup of refreshEntries can meet a missing entry in a pass over some table, at some time and
  with some idle times, if and only if some live entry's next hop has no entry, or is not live and has a smaller
  address (`NextHops.LookupCanMissIff`). So it cannot while next hops are sound (`NextHops.LookupFinds`), and
  `NextHops.NextHopLookupCanFail` gets there from sound next hops with one received RREQ and one pass.
* The answer to a flood finds its way back while the reverse routes last: 52.5 seconds less one for each hop, but
  only four seconds at the first node, which knows the originator as a neighbour (`Learning.RreqTeaches`,
  `Chain.InTime`).
* A received RERR makes its receiver send one on without losing an indirect route if and only if the route to
  its sender was direct before and either, without the N flag, the RERR takes nothing but that route, which has
  precursors, or, with the N flag, it names one destination with precursors that is used over its sender
  (`ErrorCascade.ReceivePaysIff`; an instance: `ErrorCascade.SelfReportIsFree`). Without the N flag that needs a
  RERR that lists its sender; the cascade theorem excludes those at the start, and a RERR sent onward never is
  one (`ErrorCascade.ReceivePays`).
* createNewRERR writes through a null pointer exactly when the first lost destination with precursors has one
  (`Aodv.Daemon.CreateNewRERR`).
* An intermediate node answers with a RREP sent over its route to the originator and filled from its route to
  the destination, and with the G flag a second one the other way round. What it sends depends on uninitialised
  memory if and only if one of these is sent over a usable route (active, unexpired, with a next hop) while the
  route it is filled from is not active or has expired
  (`Lookups.AnswerSendsJunkIff`, from the exact packets of `Lookups.AnswerSends`). A RREQ with the G flag that has
  travelled 52 hops or more is an instance (`Lookups.FarOriginatorGetsJunk`).
* A request for a destination keeps the one-timer property (at most one discovery timer, and only while a
  request is open) if and only if none is queued for it or nothing comes of the request
  (`Discoveries.AgentRequestPreserves`). The packet queue does not ensure the former: after a failed enqueue
  the next packet asks again (`Ods.SecondArrivalAsksIff`); without failed enqueues and cleanups there is a
  release in between (`Ods.ReleaseBetween`).
* Rewriting the reboot timer in place keeps the queue sorted exactly when it overtakes no timer
  (`Alarms.ResetKeepsSortedIff`), and the alarm in time exactly when another timer is the head
  (`Alarms.ResetKeepsAlarmIff`). Removing the head keeps the alarm in time exactly when the timer behind it is
  not due yet (`Timers.RemoveNeverLate`).
* The neighbour queue compares type and interface only before it re-arms, so a removal can set the alarm
  too late (`NeighborRuns.RemoveEntryLateIff` says exactly when).
* RERR and hello packets survive a print and a parse exactly when their one-byte counts fit
  (`RerrCodec.RoundTripIff`, `HelloCodec.RoundTripIff`).

## Model

| member | source | states |
|---|---|---|
| Chain.ChainLaw | LA_Client_aodv/aodv.cc:189-435 | along any chain of running nodes no longer than the ttl, that can relay the flood and get the answer back in time, every copy of the flood and of the answer is sent by the node before it, and in the end every node has an active route to the destination and an entry for the originator, over its neighbours in the chain and with the right hop counts and lifetimes; the originator tells its Local Agent IP_FOUND |
| Chain.QuietChainIsReady | LA_Client_aodv/rreq.cc:53-150 | a chain of up to 48 hops in which nobody knows the end points or the flood, and all deliveries take less than four seconds, is such a chain |
| Chain.FloodRelayed | LA_Client_aodv/aodv.cc:260-272 | a node on the way sends the flood one hop further with the higher destination number, and keeps the way back |
| Chain.FloodAnswered | LA_Client_aodv/aodv.cc:274-300 | the destination sends its answer back where the flood came from |
| Chain.AnswerHeard | LA_Client_aodv/aodv.cc:411-430 | a node that hears the answer has the route and passes the answer on |
| Messages.RreqSent | LA_Client_aodv/aodv.cc:189-323 | exactly what a running node sends, answers to the Local Agent, and does to its own number when it hears a flood it has not handled: as destination, with a route that is new enough, and otherwise |
| Messages.RreqGoesOn | LA_Client_aodv/aodv.cc:260-272 | without an active route that is new enough exactly one RREQ goes out if the received ttl is more than 1, none otherwise: a broadcast one hop further with ttl lowered by one and the higher destination number |
| Messages.RreqIgnored | LA_Client_aodv/rreq.cc:82-96 | a flood that was handled sends nothing and refreshes its sender, the node's own changes nothing |
| Messages.RrepSent | LA_Client_aodv/aodv.cc:411-430 | exactly what a running node sends and answers when it hears a RREP: a RREP for another node goes on, one hop further, to the next hop toward its originator if that route is usable, and none otherwise |
| Messages.RrepPrecursors | LA_Client_aodv/rrep.cc:175-190 | a RREP that is relayed over usable routes makes the next hop toward its originator a precursor of its destination, behind the old ones and once only; no other list changes |
| Messages.RreqPrecursors | LA_Client_aodv/rrep.cc:88-115 | an answer over usable routes makes the sender a precursor of the destination and the next hop toward the destination one of the originator; no other list changes |
| Precursors.OnlyMessagesAdd | LA_Client_aodv/rtable_entry.cc:50-79 | whatever happens to a node, a list changes only by received RREQs and RREPs, which add at most two behind the old ones, or by the erasure of its entry |
| Precursors.PrecursorsDistinct | LA_Client_aodv/rtable_entry.cc:50-79 | over every run no precursor is listed twice |
| Precursors.ErrorGoesOn | LA_Client_aodv/rerr.cc:221-324 | a RERR without the N flag from the next hop of a live route with precursors that lists it makes exactly one RERR go on, a broadcast that lists it |
| Precursors.RelayThenError | LA_Client_aodv/rrep.cc:175-190 | a node that has relayed a RREP over usable routes passes on a later error about the route it told of |
| Precursors.AnswerThenError | LA_Client_aodv/rrep.cc:88-115 | a node that has answered a RREQ over usable routes passes on a later error about either route |
| Learning.RrepTeaches | LA_Client_aodv/routingTable.cc:398-519 | every entry after a received RREP, during reboot and after: the sender is a usable neighbour for exactly four seconds, a fresh destination is usable exactly for the lifetime named, nothing else changes but the prolonged route of a relayed RREP |
| Learning.RreqTeaches | LA_Client_aodv/routingTable.cc:229-346 | the same for a RREQ: a fresh reverse route is usable for 52.5 seconds less one for each hop, or as long as an active one was |
| Learning.RrepTells | LA_Client_aodv/routingTable.cc:603-689 | exact kernel gateways, repair list and remaining searches after a RREP at a running node |
| Learning.RreqTells | LA_Client_aodv/routingTable.cc:246-346 | the same after a RREQ that is handled |
| Learning.RebootIsSilent | LA_Client_aodv/aodv.cc:208-235 | a rebooting node learns routes and raises its own number to what a RREQ for it names, and does nothing else |
| Requests.RequestAnswered | LA_Client_aodv/aodv.cc:694-872 | the reply a request itself gets: IP_FOUND if and only if the daemon is not in reboot and the entry is active and unexpired, IP_NOFOUND exactly during reboot or for a forwarded packet without such an entry and without repair, and none otherwise |
| Requests.RequestSent | LA_Client_aodv/aodv.cc:694-872 | exactly the packets a request sets off: the first ring's RREQ, the RREQ of a local repair, an error to the precursors or to all, or nothing |
| Requests.KernelRouteIsFound | LA_Client_aodv/aodv.cc:771-789 | over every run from boot, after reboot, a request is answered IP_FOUND if and only if the kernel has a route whose entry has not expired |
| Requests.SearchLaw | LA_Client_aodv/aodv.cc:1070-1327 | a whole search nobody answers: a local request sends a RREQ with the first ring, each firing of its timer (a second later for every hop of the ring) one with the next ring and fresh numbers (1, 3, 5, 35, 35 for an unknown destination), and then it is refused and forgotten |
| Requests.RingsFire | LA_Client_aodv/aodv.cc:1237-1327 | the firings in between, for any pending entry that has not been retried |
| Upkeep.IdleIffUnused | LA_Client_aodv/routingTable.cc:824-850 | the idle time that decides is below three seconds if and only if the entry, or for a neighbour some entry through it, is reported in use; it is the least of the reported times |
| Upkeep.VisitExact | LA_Client_aodv/routingTable.cc:805-958 | every entry and kernel route after the visit of an expired entry: erased, prolonged with its next hop, or down with all finite entries over it if it was a neighbour |
| Upkeep.UsedRoutesSurvive | LA_Client_aodv/routingTable.cc:787-966 | in a sound table a live route that is in use or unexpired, and whose next hop is too, survives the whole pass with its kernel route |
| Upkeep.UnusedGoDown | LA_Client_aodv/routingTable.cc:787-966 | when nothing is in use, a sound table loses in one pass exactly the live routes that have expired or whose next hop has, whatever the order of the visits |
| Upkeep.TimeoutExact | LA_Client_aodv/routingTable.cc:700-770 | every entry, kernel route and repair after a neighbour falls silent |
| Upkeep.RepairFails | LA_Client_aodv/aodv.cc:1177-1229 | the failed repair in full: entry, refusal, error to those who use the route, end of the repair |
| Upkeep.RerrTeaches | LA_Client_aodv/rerr.cc:109-187 | every entry and kernel route after a RERR without the N flag: listed live ones over the sender go down with the first number listed, dead ones take the highest listed |
| Upkeep.RepairTeaches | LA_Client_aodv/aodv.cc:505-537 | every entry and every packet after a RERR with the N flag |
| Heartbeat.ClocksNeverStop | LA_Client_aodv/aodv.cc:1386-1474 | over every run from boot the periodic timer is queued exactly once, the reboot timer exactly until reboot is over, the hello timer exactly once from then on if hellos are enabled, and at most one timer watches each neighbour |
| Heartbeat.OthersSteady | LA_Client_aodv/timerQueue.cc:122-394 | no message, request or other timer touches those clocks |
| Heartbeat.HelloUnlessHeard | LA_Client_aodv/aodv.cc:1494-1530 | between two hello timers, whatever happens: the second hello is sent if and only if no broadcast went out since the first |
| Heartbeat.HelloIsWatched | LA_Client_aodv/routingTable.cc:665-689 | after a hello exactly one timer watches its sender, due four seconds later |
| Heartbeat.BootsWithTimers | LA_Client_aodv/aodv.cc:1386-1434 | the daemon boots for fifteen seconds and looks after its table every second |
| Heartbeat.TransitProlongsReboot | LA_Client_aodv/aodv.cc:745-751 | a forwarded packet during reboot makes it last fifteen seconds from then on |
| Heartbeat.PeriodicIs | LA_Client_aodv/aodv.cc:1441-1458 | the periodic handler comes again a second later and forgets exactly the expired floods |
| Heartbeat.RebootIs | LA_Client_aodv/routingTable.cc:48-63 | after reboot the kernel has the next hop of every active entry as gateway |
| Timers.AlarmFollowsHead | LA_Client_aodv/timerQueue.cc:122-394 | an alarm set exactly for the head stays so when a timer is set, and exactly when it does so under either removal; scheduleTimer leaves it so |
| Discovery.LoopFree | LA_Client_aodv/routingTable.cc:229-313 | from any network in which nobody knows originator or destination, after any deliveries of one discovery's RREQs and RREPs (any topology, order, loss, duplication), next hops toward either end point strictly lower the hop count, and following them reaches it within the stored hop count |
| Discovery.DeliverInv | LA_Client_aodv/rreq.cc:82-148 | one delivery keeps the discovery invariant: a copy in flight never claims fewer hops than its sender's own entry, and every entry's next hop is the end point or strictly closer to it |
| Floods.FloodTtl | LA_Client_aodv/aodv.cc:260-272 | in any network, whatever its nodes know, over any deliveries, requests and timers: if all copies of one flood started with the same ttl, then hop count plus ttl of every later copy equals it (modulo 256 for a ttl above 256, which IP does not carry) and its ttl is at least 1 |
| Floods.StepSends | LA_Client_aodv/rreq.cc:82-148 | whatever happens to a node, the RREQs it sends are its own, or the one it just received, one hop further, if it had not handled that flood |
| Floods.OneCopyPerWindow | LA_Client_aodv/fwRreqList.cc:15-83 | from any state and over any events within PATH_TRAVERSAL_TIME a node sends at most one copy of another node's flood, and none if it remembers it to the end |
| Floods.OneCopyWithoutTimers | LA_Client_aodv/rreq.cc:89-99 | between two alarms, however long, a node sends at most one copy, and none of a flood it remembers |
| Floods.CopiesAtMostNodes | LA_Client_aodv/fwRreqList.cc:15-83 | over any moves of a whole network within PATH_TRAVERSAL_TIME the copies of one flood number at most the nodes other than its originator |
| Floods.CopiesWereHandled | LA_Client_aodv/rreq.cc:89-148 | over every run from boot the copies of another node's flood in the outbox number at most the times it was handled, and any further events within PATH_TRAVERSAL_TIME add at most one |
| Discovery.DescendingReaches | LA_Client_aodv/aodv.cc:594-607 | strictly descending next hops end at the target after at most as many hops as the first entry says |
| Discovery.RecvRREQEffect | LA_Client_aodv/rreq.cc:53-150 | a running node that hears a RREQ of the discovery learns or keeps its entry for the originator and keeps the one for the destination |
| Discovery.RecvRREPEffect | LA_Client_aodv/rrep.cc:156-201 | a running node that hears a RREP learns the end point at one hop more than the RREP says, and keeps its entry for the other one |
| Discovery.AnswerEffect | LA_Client_aodv/aodv.cc:274-320 | every packet of an answer, gratuitous RREP included, is a RREP that claims exactly the hops of the node's own entry |
| Runs.RunInvariant | LA_Client_aodv/routingTable.cc:603-689 | over every run from boot: no kernel routes during reboot and afterwards exactly the active destinations; every IP_FOUND sent with that route in the kernel; ACTIVE implies a finite and INVALID an infinite hop count, BROKEN implies local repair; and per destination at most one RREQ or repair timer, exactly one RREQ timer while a local request is open, none otherwise, no repair timer of an active route |
| Runs.StepKeeps | LA_Client_aodv/aodv.cc:1624-1665 | each event keeps the invariant of routes, kernel, replies, repair list, pending list and timers |
| Runs.LrHeadInactive | LA_Client_aodv/aodv.cc:1177-1229 | LR_handler never meets an active route |
| Runs.BootInv | LA_Client_aodv/aodv.cc:1386-1434 | the daemon starts in the invariant |
| Runs.ResendsBounded | LA_Client_aodv/aodv.cc:1237-1327 | over any run, with whatever events, RREQs are sent again at most four times as often as sendRREQ originated them |
| Runs.NextRingUsesOne | LA_Client_aodv/aodv.cc:1255-1281 | each resend uses up one unit of the entry's potential over ttl and retries, which starts at no more than four |
| Runs.RefusedInTime | LA_Client_aodv/aodv.cc:1237-1327 | a pending destination is refused with IP_NOFOUND at the latest when its RREQ timer fires for one time more than its entry has rings and retries left |
| Runs.ResendFindsEntry | LA_Client_aodv/aodv.cc:1247-1325 | over any run every queued RREQ timer has an entry in the pending list, so the "not in rreq List" branch is never taken |
| Runs.FloodHandledOnce | LA_Client_aodv/fwRreqList.cc:15-83 | over any run with a forward-running clock a daemon acts on one source and RREQ id only at moments at least PATH_TRAVERSAL_TIME apart |
| Discoveries.ReceivePreserves | LA_Client_aodv/routingTable.cc:603-689 | a received message, whatever its content, keeps the one-timer property and the pending-entry property of every destination, and handles at most one flood, only if it was not remembered |
| Discoveries.AgentRequestPreserves | LA_Client_aodv/aodv.cc:694-872 | a request keeps the one-timer property of every destination if and only if no discovery timer of its own destination is queued or nothing comes of it, and the pending-entry property always; an answered destination has no such timer |
| Discoveries.FirePreserves | LA_Client_aodv/timerQueue.cc:100-113 | running the head's handler and erasing the head keeps both properties of every destination |
| Discoveries.NeighborUpdateViews | LA_Client_aodv/routingTable.cc:643-663 | a neighbour update ends the discovery of that neighbour and touches no other |
| Discoveries.ResendTotals | LA_Client_aodv/aodv.cc:1283-1322 | a resend handler updates one pending entry by one ring and counts one resend, or gives that entry up, or finds none |
| Routes.ReceiveKeepsIff | LA_Client_aodv/aodv.cc:144-187 | any message, during reboot and after, keeps the table flags, the kernel agreement and the replies if and only if it does not make the daemon take a route whose hop count is stored as INFINITY |
| Routes.ReceiveKeeps | LA_Client_aodv/aodv.cc:144-187 | in particular any message whose hop count is not INFINITY - 1 keeps them |
| Routes.HandleKeeps | LA_Client_aodv/timerQueue.cc:100-113 | every timer handler keeps them, local repair included when its destination is not active |
| Routes.NeighborUpdateKeeps | LA_Client_aodv/routingTable.cc:603-689 | neighborUpdate keeps them outside reboot |
| Routes.RouteUpdateKeepsIff | LA_Client_aodv/routingTable.cc:246-313 | an accepted route update keeps them if and only if the stored hop count is not INFINITY |
| Routes.StaleKernelRoute | LA_Client_aodv/routingTable.cc:805-816 | an active entry with hop count INFINITY is erased when it expires and its kernel route stays |
| Routes.RebootDoneKeeps | LA_Client_aodv/aodv.cc:1460-1474 | ending the reboot phase turns "no kernel routes" into "exactly the active ones" |
| Routes.NeighborTimeoutKeeps | LA_Client_aodv/routingTable.cc:700-770 | a neighbour timeout, for a present entry or not, keeps them |
| Routes.TimeoutRaisesSeq | LA_Client_aodv/routingTable.cc:723-764 | every entry that a neighbour timeout takes out of ACTIVE becomes BROKEN with its sequence number raised by one |
| Routes.UpdateValidKeeps | LA_Client_aodv/rerr.cc:162-181 | invalidating the entries of a RERR keeps flags, kernel and repair list in agreement |
| Refresh.RefreshPass | LA_Client_aodv/routingTable.cc:787-966 | after a whole pass nothing is expired; what was erased entered expired with INFINITY hops; and an entry changes its route only by exact invalidation (sequence number raised and last hop count kept if it was active) |
| Refresh.RefreshErases | LA_Client_aodv/routingTable.cc:811-816 | conversely, every entry that enters expired with INFINITY hops is erased |
| Refresh.RefreshKeepsNextHops | LA_Client_aodv/routingTable.cc:915-955 | "every live next hop is a live neighbour pointing to itself" survives a pass; entries through a destination that is not live afterwards are all infinite; and at every visit a live entry's next hop is in the table, so the lookup is not null |
| NextHops.NeighborKeepsNextHops | LA_Client_aodv/routingTable.cc:603-638 | neighborUpdate keeps that property |
| NextHops.RouteKeepsNextHopsIff | LA_Client_aodv/routingTable.cc:398-486 | an accepted route update through a live neighbour keeps it if and only if the new hop count is not 1 and no other live entry goes through the destination |
| NextHops.ReceiveKeepsNextHopsIff | LA_Client_aodv/aodv.cc:144-187 | exactly which received RREQs, RREPs and RERRs keep it, in every branch, during reboot and after |
| NextHops.RerrKeepsNextHopsIff | LA_Client_aodv/aodv.cc:438-579 | a RERR keeps it if and only if it has the N flag (after reboot), or does not list its sender, or lists every other live destination through it |
| NextHops.UpdateValidKeepsNextHopsIff | LA_Client_aodv/rerr.cc:141-187 | the loop behind it |
| NextHops.HandleKeepsNextHopsIff | LA_Client_aodv/timerQueue.cc:100-113 | exactly which timers keep it when they fire |
| NextHops.LRHandlerKeepsNextHopsIff | LA_Client_aodv/aodv.cc:1207-1214 | giving a repair up keeps it if and only if no other live route goes through the destination |
| NextHops.NeighborTimeoutKeepsNextHopsIff | LA_Client_aodv/routingTable.cc:723-742 | a neighbour timeout keeps it if and only if the entry is not infinite or the last hop count it gets back fits its next hop |
| NextHops.AgentRequestKeepsNextHops | LA_Client_aodv/aodv.cc:694-872 | a request of the Local Agent keeps it |
| NextHops.LookupCanMissIff | LA_Client_aodv/routingTable.cc:787-871 | a whole pass over a table can look up a missing next hop, at some time and with some idle times, if and only if some live entry's next hop has no entry, or is not live and visited earlier |
| NextHops.LookupFinds | LA_Client_aodv/routingTable.cc:870-871 | with that property no visit of a whole pass looks up a missing next hop |
| NextHops.NextHopLookupCanFail | LA_Client_aodv/routingTable.cc:870-871 | from a table with the property, one received RREQ and one whole pass later, the second visit of the next pass looks up a next hop that is missing |
| BestRoute.BestOfferWinsIff | LA_Client_aodv/routingTable.cc:408-486 | after any series of offers for one destination, from any entry or none, the table holds the first among the lexicographically best (highest sequence number, then fewest hops), next hop included, if and only if the first offer with the highest sequence number did not come over 256 hops; else that one is held as 0 hops |
| BestRoute.BestOfferWins | LA_Client_aodv/routingTable.cc:246-313 | such a best and such a first newest offer exist for every non-empty series |
| BestRoute.UpdateHoldsIff | LA_Client_aodv/routingTable.cc:417-442 | one update leaves the better of entry and offer if and only if the offer is refused or comes over at most 255 hops |
| BestRoute.WrappedHopWins | LA_Client_aodv/routingTable.cc:303-308 | an instance: an offer of 256 hops is stored as 0 and a shorter one of the same age is refused |
| Schedule.ScheduleTimerCorrect | LA_Client_aodv/timerQueue.cc:90-119 | with re-entrant handlers, scheduleTimer fires exactly the timers that were due, in list order, and leaves a sorted queue of the others and of the new, later ones, with the alarm set for its head |
| Schedule.HandlersAddLater | LA_Client_aodv/timerQueue.cc:100-113 | every handler of the daemon only inserts timers strictly after now |
| Schedule.HeadStays | LA_Client_aodv/timerQueue.cc:104-112 | the timer whose handler ran is still the head when it is erased, and the number of due timers falls by one |
| Schedule.FireHead | LA_Client_aodv/timerQueue.cc:100-113 | one turn of the loop lowers the number of due timers, so it terminates |
| Alarms.AlarmNeverLate | LA_Client_aodv/timerQueue.cc:122-181 | over every run in which steps happen while no timer is overdue (alarms excepted) and the reboot timer is not reset, the queue is sorted and a non-empty queue has its alarm at or before the head |
| Alarms.StepOnTime | LA_Client_aodv/timerQueue.cc:253-394 | each step keeps that |
| Alarms.ResetKeepsSortedIff | LA_Client_aodv/timerQueue.cc:210-234 | resetRebootTimer keeps the queue sorted if and only if the timers before and behind the rewritten one are not overtaken |
| Alarms.ResetKeepsAlarmIff | LA_Client_aodv/timerQueue.cc:210-234 | it keeps the alarm in time if and only if the reboot timer is not the head (or the clock reads 0) |
| Timers.SetTimerNeverLate | LA_Client_aodv/timerQueue.cc:122-181 | set_timer with a positive delay never leaves the alarm later than the head |
| Timers.RemoveNeverLate | LA_Client_aodv/timerQueue.cc:253-394 | the removals leave the alarm in time, the arming ones if and only if the head stays, or nothing is behind it, or what is behind it is not due yet |
| Timers.LooksLikeHeadIffHead | LA_Client_aodv/timerQueue.cc:303-317 | for the first match of a search, isTimerSetNow is true if and only if it is the head |
| Timers.InsertSorted | LA_Client_aodv/timerQueue.cc:51-85 | insertion keeps the list sorted |
| Timers.InsertBehindHead | LA_Client_aodv/timerQueue.cc:59-83 | a timer later than the head goes behind it |
| Timers.CountInsert | LA_Client_aodv/timerQueue.cc:51-85 | insertion adds exactly the new timer, whatever is counted |
| Timers.CountRemoveFirst | LA_Client_aodv/timerQueue.cc:262-299 | removal takes away exactly one match, if there is one |
| ErrorCascade.CascadeDiesOut | LA_Client_aodv/aodv.cc:486-576 | in any network without self entries and RERRs listing their sender, over any deliveries, the RERRs sent onward plus the remaining live entries whose next hop is not the destination never exceed the latter's number at the start |
| ErrorCascade.NewRerrExact | LA_Client_aodv/rerr.cc:221-324 | a new RERR lists, without duplicates and with the stored sequence numbers, exactly the listed destinations routed through the sender, which are exactly the entries that stop being live, and is sent if and only if one of them has a precursor |
| ErrorCascade.NewDestsExact | LA_Client_aodv/rerr.cc:248-315 | the loop behind it: which entries are invalidated, and that the others do not change |
| ErrorCascade.ReceivePaysIff | LA_Client_aodv/aodv.cc:486-576 | any RERR, with the N flag or without, during reboot and after: what a node sends onward is paid for by an indirect live entry lost there, except exactly for free errors (the sender was direct before, and either only its route is taken and has precursors, or the N flag names a destination with precursors used over it) |
| ErrorCascade.RepairExact | LA_Client_aodv/aodv.cc:505-537 | with the N flag only the sender stops being indirect, and one RERR goes on if and only if the one destination is used over the sender and has precursors |
| ErrorCascade.ReceivePays | LA_Client_aodv/aodv.cc:486-576 | so it is whenever the received RERR does not list its sender, and then the one sent onward does not list its own sender either |
| ErrorCascade.RunningExact | LA_Client_aodv/rerr.cc:221-324 | which indirect entries a RERR leaves, and that one RERR is sent if and only if a lost destination has precursors |
| ErrorCascade.NeighborIndirect | LA_Client_aodv/routingTable.cc:603-638 | the neighbour update on receipt takes exactly the sender out of the indirect entries |
| ErrorCascade.SelfReportIsFree | LA_Client_aodv/rerr.cc:250-314 | an instance: a neighbour with precursors that reports itself makes its receiver send a RERR onward although it has no indirect entry |
| Aodv.Daemon.Dispatch | LA_Client_aodv/aodv.cc:1624-1665 | one event does exactly the step of the run theorems, and keeps their invariant |
| Aodv.Daemon.constructor | LA_Client_aodv/aodv.cc:1386-1434 | the daemon boots with the reboot and the periodic timer queued and the alarm armed |
| Aodv.Daemon.Send | LA_Client_aodv/aodv.cc:1337-1382 | exact new state: nothing for ttl 0; a broadcast also cancels the next hello |
| Aodv.Daemon.GenerateRERR | LA_Client_aodv/aodv.cc:1549-1621 | exact new state: one RERR with the table's sequence number if there is a precursor or it is forced, unicast to a single precursor |
| Lookups.FoundIffInKernel | LA_Client_aodv/routingTable.cc:521-550 | after reboot findActiveRoute finds exactly the destinations the kernel has a route to, as long as they have not expired, and never one with INFINITY hops |
| Lookups.AnswerSends | LA_Client_aodv/aodv.cc:274-320 | exactly the packets an intermediate node sends in answer: a RREP over the originator's route about the destination's, with the G flag one over the destination's route about the originator's, each only while the route it goes over is active and unexpired, and filled from memory if the route it tells about is not |
| Lookups.AnswerSendsJunkIff | LA_Client_aodv/rrep.cc:81-154 | what is sent is independent of uninitialised memory, except if and only if a packet goes out over one route while the route it is filled from is not active or has expired |
| Lookups.FarOriginatorGetsJunk | LA_Client_aodv/routingTable.cc:303-308 | an instance: a RREQ with the G flag that has travelled 52 hops or more from an unknown originator, at a node with an unexpired route, makes it send a gratuitous RREP filled from memory |
| Lookups.CreateRREPIs | LA_Client_aodv/routingTable.cc:552-567 | the RREP of a node that found a valid route carries the stored route, at least as new as asked for, as long as it is unexpired; only precursors change |
| Lookups.RingRemembers | LA_Client_aodv/routingTable.cc:89-104 | when a live route is lost to a neighbour timeout, a RERR, a failed repair, or (if active) a refresh pass, getTTL goes on answering its hop count, so the next search starts beyond it; a broken route lost to a refresh pass leaves its last hop count |
| Lookups.InfiniteRouteStays | LA_Client_aodv/routingTable.cc:805-816 | a RREP with hop count 59 that is taken leaves, after one refresh pass behind its lifetime, a kernel route without an entry |
| Aodv.Daemon.AddToPrecursor | LA_Client_aodv/rtable_entry.cc:50-79 | the precursor list gains the address unless it holds it (used by `Messages.RrepPrecursors` and `Messages.RreqPrecursors`) |
| Aodv.Daemon.GetNextHop | LA_Client_aodv/aodv.cc:594-607 | next hop of an active route, whose lifetime is prolonged, else 0 |
| Aodv.Daemon.RemoveRREQTimer | LA_Client_aodv/timerQueue.cc:253-301 | the first RREQ or repair timer of the destination goes, and with a repair timer the repair-list entry |
| Aodv.Daemon.RebootNeighborUpdate | LA_Client_aodv/routingTable.cc:570-598 | exact new table, kernel untouched |
| Aodv.Daemon.NeighborUpdate | LA_Client_aodv/routingTable.cc:603-689 | exact new state: entry, kernel route unless already active, reply, end of the discovery, hello timer |
| Aodv.Daemon.ResetActiveTimer | LA_Client_aodv/routingTable.cc:665-689 | an existing neighbour timer is replaced; only a hello starts one |
| Aodv.Daemon.RebootReverseRouteUpdate | LA_Client_aodv/routingTable.cc:167-226 | exact new table, kernel untouched |
| Aodv.Daemon.ReverseRouteUpdate | LA_Client_aodv/routingTable.cc:229-346 | exact new state: entry taken only if better, kernel route rewritten only on a shorter path or a new next hop, reply, end of the discovery, RERR after a longer repair |
| Aodv.Daemon.RebootForwardRouteUpdate | LA_Client_aodv/routingTable.cc:349-394 | exact new table, kernel untouched |
| Aodv.Daemon.ForwardRouteUpdate | LA_Client_aodv/routingTable.cc:398-519 | as the reverse update, with the RREP's lifetime |
| Aodv.Daemon.CreateRREQ | LA_Client_aodv/rreq.cc:30-50 | a RREQ with fresh id and sequence number and the table's destination sequence number |
| Aodv.Daemon.RecvRREQ | LA_Client_aodv/rreq.cc:53-150 | exact new state, rewritten message and verdict |
| Aodv.Daemon.CreateRREP | LA_Client_aodv/rrep.cc:54-120 | the RREP of the destination or of an intermediate node, and the two precursors added |
| Aodv.Daemon.CreateGRREP | LA_Client_aodv/rrep.cc:122-154 | the gratuitous RREP from the originator's entry |
| Aodv.Daemon.RecvRREP | LA_Client_aodv/rrep.cc:156-201 | exact new state, rewritten message, and whether to forward it |
| Aodv.Daemon.ProcessRREQ | LA_Client_aodv/aodv.cc:189-323 | exact new state, during reboot and after; what goes out is `Messages.RreqSent` |
| Aodv.Daemon.ProcessRREP | LA_Client_aodv/aodv.cc:349-435 | exact new state, during reboot and after; what goes out is `Messages.RrepSent` |
| Aodv.Daemon.UpdateInvalidEntries | LA_Client_aodv/rerr.cc:109-137 | infinite entries take the higher sequence number, item by item |
| Aodv.Daemon.UpdateValidEntries | LA_Client_aodv/rerr.cc:141-187 | exact new table, kernel routes and repair list |
| Aodv.Daemon.CreateNewRERR | LA_Client_aodv/rerr.cc:221-324 | exact new state; the items, the wrapped count, transmission if and only if a lost destination has a precursor, and the write through the null address if and only if the first such destination has exactly one |
| Aodv.Daemon.ProcessRERR | LA_Client_aodv/aodv.cc:438-579 | exact new state, during reboot, for the N flag, and otherwise |
| Aodv.Daemon.Receive | LA_Client_aodv/aodv.cc:144-187 | own messages are ignored, the ttl is lowered by one, and the type selects the routine |
| Aodv.Daemon.SendRREQ | LA_Client_aodv/aodv.cc:1070-1130 | exact new state: RREQ, prolonged entry, first ring, pending entry, timer, broadcast |
| Aodv.Daemon.WidenRing | LA_Client_aodv/aodv.cc:1255-1272 | the pending entry's ring grows by 2 until the threshold and then covers the network, counting retries |
| Aodv.Daemon.ResendRREQ | LA_Client_aodv/aodv.cc:1237-1327 | exact new state: next ring with a fresh RREQ, or IP_NOFOUND and the entry deleted |
| Aodv.Daemon.DoLocalRepair | LA_Client_aodv/aodv.cc:1020-1068 | exact new state: a RREQ with ttl last hop count plus 2, and the repair timer |
| Aodv.Daemon.LRHandler | LA_Client_aodv/aodv.cc:1177-1229 | exact new state: IP_NOFOUND, entry invalidated, RERR, repair entry gone |
| Aodv.Daemon.ResetRebootTimer | LA_Client_aodv/timerQueue.cc:210-234 | the reboot timer is rewritten where it is, and the alarm is given an absolute time if that timer is the head |
| Aodv.Daemon.AgentRequest | LA_Client_aodv/aodv.cc:694-872 | exact new state in every branch: reboot, active route, local request, local repair, no route; answer and packets are `Requests.RequestAnswered` and `Requests.RequestSent` |
| Aodv.Daemon.NeighborTimeoutHandler | LA_Client_aodv/routingTable.cc:700-770 | exact new table, kernel routes and repair list |
| Aodv.Daemon.IdleTime | LA_Client_aodv/routingTable.cc:824-850 | the idle time that decides about an expired entry |
| Aodv.Daemon.InvalidateThrough | LA_Client_aodv/routingTable.cc:915-955 | exactly the finite entries through the lost neighbour are invalidated and leave the kernel |
| Aodv.Daemon.RefreshEntries | LA_Client_aodv/routingTable.cc:787-966 | the pass visits every entry once, erasing while it scans, as the specification does |
| Aodv.Daemon.SendHello | LA_Client_aodv/aodv.cc:1494-1530 | a hello unless a broadcast went out since the last one, and the next hello timer |
| Aodv.Daemon.AddAllValidRoutes | LA_Client_aodv/routingTable.cc:48-63 | the kernel gains exactly the routes of the active entries |
| Aodv.Daemon.RebootHandler | LA_Client_aodv/aodv.cc:1460-1474 | exact new state |
| Aodv.Daemon.PeriodicHandler | LA_Client_aodv/aodv.cc:1441-1458 | exact new state: timer, refresh pass, expired floods forgotten |
| Aodv.Daemon.ScheduleTimer | LA_Client_aodv/timerQueue.cc:90-119 | exact new state, with termination by the number of due timers |
| TimerQueues.TimerQueue.TimerAdd | LA_Client_aodv/timerQueue.cc:21-87 | the timer goes before the first one that is not earlier |
| TimerQueues.TimerQueue.SetTimer | LA_Client_aodv/timerQueue.cc:122-181 | exact new list and alarm |
| TimerQueues.TimerQueue.FindFirst | LA_Client_aodv/timerQueue.cc:397-423 | the first matching timer or the end |
| TimerQueues.TimerQueue.RemoveArmed | LA_Client_aodv/timerQueue.cc:253-301 | exact new list and alarm, and the data of the removed timer |
| TimerQueues.TimerQueue.RemoveQuiet | LA_Client_aodv/timerQueue.cc:359-394 | the first match goes, the alarm stays |
| TimerQueues.TimerQueue.Rearm | LA_Client_aodv/timerQueue.cc:115-116 | the alarm is set for a head in the future |
| Lists.LocalRepair.FindInList | LA_Client_aodv/localRepair.cc:15-28 | an index of the destination, none if and only if it is absent |
| Lists.LocalRepair.AddToList | LA_Client_aodv/localRepair.cc:31-54 | the set gains the destination and the list stays without duplicates |
| Lists.LocalRepair.DeleteFromList | LA_Client_aodv/localRepair.cc:69-84 | the set loses the destination and the list stays without duplicates |
| Lists.RreqPendingList.InList | LA_Client_aodv/rreqPendingList.cc:33-54 | the first entry of the destination or the end |
| Lists.RreqPendingList.DeleteFromList | LA_Client_aodv/rreqPendingList.cc:75-91 | the first entry of the destination goes |
| Lists.FwRreqList.InList | LA_Client_aodv/fwRreqList.cc:39-58 | true exactly for a remembered flood |
| Lists.FwRreqList.AddToList | LA_Client_aodv/fwRreqList.cc:15-36 | a new flood is remembered for PATH_TRAVERSAL_TIME, an old one is left as it is |
| Lists.FwRreqList.UpdateEntries | LA_Client_aodv/fwRreqList.cc:61-83 | erasing while iterating leaves exactly the unexpired floods |
| NeighborRuns.TableIsLastHellos | lib/ND/nd_interface.cpp:279-377 | just after scheduleTimer at time t, over every run, an interface's table holds exactly the senders whose last hello time plus live time exceeds t, SYMMETRIC if and only if that hello first lists this interface with a status, HEARD otherwise, with that hello's list minus this interface as two-hop set |
| NeighborRuns.TablePairsTimers | lib/ND/nd_timer_queue.cpp:169-207 | over every run the addresses of a table are distinct, and each has exactly one ENTRY timer, other addresses none |
| NeighborRuns.ReceiveKeeps | lib/ND/nd_interface.cpp:309-376 | a hello keeps the refinement |
| NeighborRuns.FireKeeps | lib/ND/nd.cpp:252-269 | a firing timer keeps it: an ENTRY timer deletes its entry, a HELLO timer adds a later one |
| NeighborRuns.UpdateInfoQueue | lib/ND/nd_interface.cpp:362-373 | after a hello the sender has one ENTRY timer, the new one, and no other timer has changed |
| NeighborRuns.TwoHopsAre | lib/ND/nd_interface.cpp:309-317 | the two-hop set has exactly the listings of other addresses, with the sender as gateway |
| NeighborRuns.RemoveEntryLateIff | lib/ND/nd_timer_queue.cpp:153-207 | removing an ENTRY timer leaves the alarm in time if and only if it was the head, or the head differs in type or interface, or nothing later follows |
| NeighborHellos.HellosNeverStop | lib/ND/nd.cpp:220-239 | over every run every interface with a hello interval has exactly one HELLO timer, and the others none |
| NeighborHellos.HelloSent | lib/ND/nd_interface.cpp:35-77 | a hello lists all local addresses and the neighbours with their status as they are, and the next is due an interval later |
| NeighborHellos.QualityKept | lib/ND/nd_interface.cpp:319-360 | the quality of a known neighbour's link is kept, and a new one starts at 0 |
| NeighborHellos.Handshake | lib/ND/nd_interface.cpp:279-377 | two nodes that do not know each other: the first hello makes its sender HEARD, the answering one makes the link SYMMETRIC at the first node, the third at the second |
| Neighbors.HeadStays | lib/ND/nd_timer_queue.cpp:219-232 | the timer whose handler ran is still the head when it is erased, and the loop terminates |
| NeighborDiscovery.Discovery.HostStatus | lib/ND/nd_interface.cpp:300-306 | the status of the first listing of this interface, NO_ENTRY without one |
| NeighborDiscovery.Discovery.TwoHopSet | lib/ND/nd_interface.cpp:309-317 | the two-hop entries in list order |
| NeighborDiscovery.Discovery.RemoveNeighborEntryTimer | lib/ND/nd_timer_queue.cpp:169-207 | exact new queue and alarm |
| NeighborDiscovery.Discovery.UpdateInfo | lib/ND/nd_interface.cpp:279-377 | exact new table and queue, for a new and a known sender |
| NeighborDiscovery.Discovery.DeleteOneHopEntry | lib/ND/nd.cpp:252-269 | the first entry of the address goes |
| NeighborDiscovery.Discovery.GenerateHello | lib/ND/nd_interface.cpp:35-77 | the hello lists all local addresses and the neighbours with their status |
| NeighborDiscovery.Discovery.SendHelloMessage | lib/ND/nd.cpp:220-239 | exact new state; interval 0 sets no timer |
| NeighborDiscovery.Discovery.ScheduleTimer | lib/ND/nd_timer_queue.cpp:209-238 | exact new state, with termination by the number of due timers |
| Ods.AnswerDecides | kernel_module/ODS_kernel/info_transmission.c:19-35 | an answer of 1 forwards what waits for its destination, in order, and any other answer drops it; the rest stays |
| Ods.FateOfPackets | kernel_module/ODS_kernel/packet_queue.c:123-201 | over every run queue, channel, agent, forwarded and dropped packets are exactly, in order, what the events alone say |
| Ods.ForwardedWasFound | kernel_module/ODS_kernel/info_transmission.c:29-31 | every forwarded packet left the queue at an answer 1 for its own destination |
| Ods.DroppedHasCause | kernel_module/ODS_kernel/packet_queue.c:123-201 | every dropped packet met a closed channel, a failed allocation, a full queue, another answer for its destination, or a cleanup |
| Ods.DrainPartitions | kernel_module/ODS_kernel/packet_queue.c:171-191 | a release takes out exactly the matching packets, forwards or drops them in arrival order, and leaves the others in order |
| Ods.NothingLost | kernel_module/ODS_kernel/packet_queue.c:9-56 | over every run received packets are exactly the queued, forwarded and dropped ones together, the queue holds at most 1000, and no destination's packets overtake each other |
| Ods.RequestsDisciplined | kernel_module/ODS_kernel/packet_queue.c:123-155 | over every run a destination with queued packets has had a request attempt since its last release, and between two attempts for one destination lies a release of it or a failed enqueue |
| Ods.ReleaseBetween | kernel_module/ODS_kernel/packet_queue.c:123-155 | without a failed enqueue for it and without a cleanup, two attempts for one destination have a release of it between them |
| Ods.SecondArrivalAsksIff | kernel_module/ODS_kernel/packet_queue.c:138-149 | of two arrivals for a destination without queued packets the second asks again if and only if the first found no memory or no room |
| Ods.ArriveKeepsRequests | kernel_module/ODS_kernel/packet_queue.c:66-78 | the test for pending packets is what keeps that discipline |
| PacketQueue.KernelModule.PendingIp | kernel_module/ODS_kernel/packet_queue.c:66-78 | true exactly when a packet for the address is queued |
| PacketQueue.KernelModule.PacketEnqueue | kernel_module/ODS_kernel/packet_queue.c:9-40 | behind all others in arrival order, unless memory or room is missing; the counter is the list's length |
| PacketQueue.KernelModule.PacketDequeue | kernel_module/ODS_kernel/packet_queue.c:42-56 | the oldest match goes, the counter follows |
| PacketQueue.KernelModule.ReceivePacket | kernel_module/ODS_kernel/packet_queue.c:123-155 | exact new state, for a closed channel, a pending and a new destination |
| PacketQueue.KernelModule.SendPacket | kernel_module/ODS_kernel/packet_queue.c:171-191 | exact new state, with termination by the queue's length |
| PacketQueue.KernelModule.CleanupPacketQueue | kernel_module/ODS_kernel/packet_queue.c:193-201 | everything is dropped and the counter ends at 0 |
| PacketQueue.KernelModule.DealInitMsg | kernel_module/ODS_kernel/info_transmission.c:10-17 | opens the channel for the sender |
| PacketQueue.KernelModule.DealInfoMsg | kernel_module/ODS_kernel/info_transmission.c:19-35 | exact new state; IP_FOUND releases the packets, anything else drops them (`Ods.AnswerDecides`) |
| PacketQueue.KernelModule.DealExitMsg | kernel_module/ODS_kernel/info_transmission.c:37-44 | closes the channel |
| RerrCodec.RoundTripIff | LA_Client_aodv/rerr.cc:63-105 | parse after print, with anything behind, is the identity if and only if the count equals the list length |
| RerrCodec.PrintLayout | LA_Client_aodv/rerr.cc:63-105 | where each field of a printed RERR lies: four header bytes, then for each item address and number, least significant byte first |
| RerrCodec.ParseLayout | LA_Client_aodv/rerr.cc:190-217 | any buffer that is as long as its count says is read from the same places |
| RerrCodec.CopyIntoBuf | LA_Client_aodv/rerr.cc:63-105 | the buffer starts with the printed packet and is otherwise unchanged |
| RerrCodec.CreateRERR | LA_Client_aodv/rerr.cc:190-217 | the packet read is the parse of the buffer |
| HelloCodec.RoundTripIff | lib/ND/nd_interface.cpp:128-190 | decode after encode gives the hello back and reads as many bytes as were written if and only if both lists have at most 255 items |
| HelloCodec.EncodeLayout | lib/ND/nd_interface.cpp:35-77 | where each field of an encoded hello lies, byte by byte |
| HelloCodec.DecodeLayout | lib/ND/nd_interface.cpp:128-190 | any readable buffer is read from the same places, up to the end of the live time |
| HelloCodec.CountedFits | lib/ND/nd_interface.cpp:26-33 | such a hello takes 8+4i+5n bytes and fits the 32 KiB buffer |
| HelloCodec.EncodeInto | lib/ND/nd_interface.cpp:35-77 | the running offset ends at the encoded length, and the buffer up to it is the encoding |
| HelloCodec.DecodeFrom | lib/ND/nd_interface.cpp:128-190 | hello and offset are the decoding of the 32 KiB buffer, whatever a short message left in it |
| DottedAddress.RoundTrip | kernel_module/ODS_kernel/utils.c:21-32 | inet_aton of inet_ntoa gives back every 32-bit address |
| DottedAddress.Ntoa | kernel_module/ODS_kernel/utils.c:21-32 | the text and its terminator fit 16 bytes |
| DottedAddress.NtoaBytes | kernel_module/ODS_kernel/utils.c:21-32 | the bytes of an address are printed in decimal from the lowest one up |
| DottedAddress.MeaningIs | kernel_module/ODS_kernel/utils.c:102-149 | what one to four numbers mean, byte by byte: all but the last are bytes, and the last fills the bytes left; exactly the others are rejected |
| DottedAddress.RadixIs | kernel_module/ODS_kernel/utils.c:72-80 | 0x and 0X mean base 16, another leading 0 base 8, anything else base 10 |
| DottedAddress.HornerLast | kernel_module/ODS_kernel/utils.c:81-100 | each further digit multiplies the value by the base and adds itself |
| DottedAddress.DigitsAre | kernel_module/ODS_kernel/utils.c:81-100 | which characters are digits of a base and what they are worth |
| DottedAddress.AtonOf | kernel_module/ODS_kernel/utils.c:55-149 | every text of numbers in C notation joined by dots, with an optional tail, is read as the documented meaning of its one to four parts, and rejected when that has none |
| DottedAddress.AcceptedIsWellFormed | kernel_module/ODS_kernel/utils.c:55-149 | conversely, whatever is accepted is such a text, with that meaning |
| DottedAddress.NumberOf | kernel_module/ODS_kernel/utils.c:72-100 | the prefix test and the digit loop read a number up to its end as its value modulo 2^32 |
| DottedAddress.InetAton | kernel_module/ODS_kernel/utils.c:55-149 | terminates on every text, never passes its end, returns the specified result and never writes parts[3] |
| DottedAddress.ReadDigits | kernel_module/ODS_kernel/utils.c:81-100 | the digit loop stays inside the text and returns the scanned value |
| DottedAddress.InetNtoa | kernel_module/ODS_kernel/utils.c:21-32 | the 16-byte buffer holds the text and its terminator |

## Left out

- Sockets, netlink and ioctl calls, packet buffers of the kernel, argument and configuration parsing, logging: input and output.
- Threads, signals and locks: every step is atomic. In particular `pending_ip` and `packet_enqueue` take the lock separately, so `Ods.RequestsDisciplined` is about the atomic step.
- Times are unbounded: the 64-bit wrap of absolute times and lifetimes (a reverse route of more than 52 hops learned in the first minutes of the epoch) is not modelled.
- A rerouted packet that comes back through the netfilter hook: a release is assumed not to feed its own queue, and a verdict other than accept or drop, which no caller uses, is not modelled.
- The blacklist (`blacklist::inList` does not advance its iterator) is taken as empty.
- Aodv.Daemon.Receive: RREP-ACK messages, which are off by default, and messages of an unknown type, which are ignored.
- Aodv.Daemon.SendRREQ: without expanding-ring search, where its ttl is not initialised.
- Aodv.Daemon.ResendRREQ: without expanding-ring search.
- Aodv.Daemon.CreateNewRERR: what happens after the write through the null address, which is modelled as having no effect; the sum of precursor counts is unbounded.
- Aodv.Daemon.ProcessRERR: a new RERR is modelled as a broadcast, where the source unicasts to an address it never sets; in the networks of `ErrorCascade` it may reach any neighbours.
- ErrorCascade.NewRerrExact: the same holds for the RERR it speaks of.
- RERR buffers are taken to be as long as the packet; the source allocates the size of an int (LA_Client_aodv/aodv.cc:546).
- Global monotonicity of sequence numbers and agreement of kernel gateways with next hops: `neighborUpdate` overwrites the stored number, often with 0, and changes the next hop of an active entry without rewriting the kernel route. Kernel agreement is about destinations.
- Discovery.LoopFree: one RREQ id and no expiry at the receiver; several rings of one search in flight together are not modelled.
- Chain.ChainLaw: the deliveries of one flood and its answer, at any times that `Chain.InTime` allows, without other events at the nodes of the chain in between; an intermediate node that answers itself is excluded (`Messages.RreqSent` says what it sends).
- ErrorCascade.CascadeDiesOut: RERRs only, without the N flag; other messages can create new entries.
- ErrorCascade.ReceivePays: without the N flag; `ErrorCascade.ReceivePaysIff` covers both.
- Runs.RunInvariant: assumes that a new request for a destination comes only when its last one was answered, and that no received hop count is INFINITY - 1. The packet queue ensures the former only for an agent that answers every request and a queue in which no enqueue fails (`Ods.ReleaseBetween`).
- Local requests only: a transit request can stay unanswered, because the repair-list cleanup of refreshEntries tests BROKEN after setting INVALID (LA_Client_aodv/routingTable.cc:908-914, and again at 947-953); that dead test is not written out.
- Aodv.Daemon.RefreshEntries: where the next hop of a used route is missing the source dereferences null; the model prolongs the used route only. `NextHops.LookupFinds` proves when this does not happen.
- Alarms.AlarmNeverLate: excludes runs that reset the reboot timer, which passes an absolute time as a delay, and steps taken while a timer is overdue.
- The alarm of the neighbour queue over whole runs: it can be late, see `NeighborRuns.RemoveEntryLateIff`.
- Changing a hello interval at run time, sending a hello on demand, and taking discovery down again.
- HelloCodec.DecodeFrom: messages with an address length other than 4, which the source copies into 4-byte variables all the same.
- The wire form of RREQs and RREPs: the source copies the objects as they lie in memory.
- DottedAddress and the codecs are about little-endian hosts; `sprintf` is modelled by its text.
- Unused or simple code: route cache deletion, the fixed-size LA message, the Local Agent, demo programs and copied trees.
