# Routing and reliable transfer: a verified model

The repository holds three network programs written in C++: a link-state router, a
distance-vector router, and a sender and receiver for reliable file transfer over UDP. This
project models all three and proves what they are for.

* **Link-state routing.** `LinkStateRouter.Router` is one router: its connection state, its copy of
  the cost matrix, its sequence numbers, its forwarding table and what it has sent.
  `UpdateFwdTable` is the confirmed/tentative search with its tie-break repair, loop by loop;
  `ForwardingTable` holds the reference (a *canonical table* that is a function of the graph alone)
  and the invariant of the search, `SearchOutcome` the tables it can end with. `HopByHop` composes the
  tables of all routers. `Flooding` and `FloodCompleteness` are the network of routers exchanging
  link-state packets, `FloodRefinement` shows one router's flood to be a run of it, and `FloodAgreement` says what a finished flood is for: all routers hold one matrix
  and deliver by it.
* **Reliable transfer.** `WindowReceiver.Receiver` is the receiver with its ring of frame buffers,
  `Reassembly` the same on values together with the unbounded reassembler that it refines.
  `WindowSender.Sender` is the sender's main loop, `Sending` and `Alignment` the same on values and
  what every run of it keeps, and `PassOutcome` what timers and waits do to the windows. `Transfer` puts both on a network that loses, duplicates and reorders, and
  `TransferBound` says how long a transfer may be.
  `Codec` is the byte format of frames and acknowledgements.
* **Distance-vector routing.** `VectorRouter.Router` is one router and one round of its listening
  loop. `DistanceVector` describes the tables of a whole network that nothing changes any more.
  `RouteExchange` is what the routers of a part of the network do about one destination, `Convergence` how
  their entries get to the ideal ones, whether or not the destination can still be reached, and
  `VectorNetwork` a network of whole tables in which every step is one round of one router: each round is
  five steps of every exchange (`RoundTraffic` says what it tells about one destination), and so its runs
  converge (`NetworkRuns`). `LossyVector` is what remains true when links lose and reorder.

The classes have the fields and branches of the program. Each method is proved against functions
and predicates on values; the properties are then proved about those. Time, the order of arrival and
what the network loses are inputs without restrictions.

## Results about the code

* *Tie-break comment.* The comment at `routing-algorithms/ls_utils.cpp:315-316` and
  `routing-algorithms/readme.md:38` say that on equal cost the lowest id is moved to the finished set
  next. The code takes the first in insertion order. The model does the same, and
  `LinkStateRouter.Router.UpdateFwdTable` shows that it makes no difference: with positive costs,
  and a matrix that agrees with the router's own links, the table is the canonical one whatever the order.
* *Own links.* A router reads its own links from `connections` and `costs`, but the tie-break reads them
  from the matrix, and a link-state packet can make the two disagree. The table is sound in any case (true
  shortest distances, next hops on shortest paths). `OutcomesIff` says which tables the invariant allows at the
  end: exactly those that follow, node by node, a `Choice` of last hop. The documented rule is met for a
  destination if and only if all nodes of its canonical path are decided fairly (`RuleMetIff`). This covers
  every destination but those behind a node where only the matrix knows an own link; there the strictly
  nearest last hop is chosen (`NearestIsChosen`), of several nearest ones each is possible, depending on
  which is extracted first (`OrderDecides`), and `DecidedByGraphIff` says when the graph alone determines the next hop.
  `MisledAboutOwnLink` is a network in which every search misses the rule.
* *Ring slots.* The slot a frame is stored in (`seq % RWS`) and the slot it is drained from
  (`(i + NFE) % RWS`) agree at every window position if and only if RWS divides MAX_SEQ_NO. With the
  shipped 170 and 5000 they disagree as soon as the window reaches the wrap, that is for NFE > 4830.
  `ReceiveRefinesIff` is the same condition for the receiver as a whole, and `ShippedWrongOutput` a run
  in which the shipped receiver writes a frame in the wrong place and acknowledges one that never came.
* *Acknowledgements at a wrap.* The remainder at `sliding-window-algorithm/reliable_sender.cpp:313`
  truncates, so an acknowledgement of a frame beyond the wrap is ignored while the window still
  starts before it.
* *Late duplicates.* Even without a wrap in the transfer, a duplicate of an old frame can be taken for a new
  one near the end of the number space. `BoundIff` is the exact limit: with given constants every transfer
  of n < MAX_SEQ_NO frames is safe in every run if and only if n is below `Bound`, which is the largest
  multiple of RWS up to MAX_SEQ_NO, or one more than that if it is MAX_SEQ_NO - RWS + 1. For the shipped
  constants these are up to 4929 frames.
* *Negative timeouts.* The deviation is signed, unlike the one of section 2 of RFC 6298, so the
  retransmission timeout can become negative. `TimeoutNegativeIff` says exactly when a sample makes it so.
* *Three clock readings.* A round of the distance-vector loop reads the clock when it stamps the sender,
  when a periodic update may be due, and for the expiry sweep. Every route leads to a present neighbour
  after the round, whatever the state, if and only if less than the heartbeat timeout passes between the
  first and the last reading (`RoundSafeIff`). Otherwise the sender itself may expire in the round that
  handles its advert, and a route through it may be installed (`RouteThroughExpired`).
* *Distance-vector fixpoint.* Tables that no heartbeat and no advert changes need not be the shortest
  distances: a router discards the adverts of a neighbour to which it has no route, so a route through
  such a neighbour stays for good. The tables are the ideal ones if and only if, in addition, every next hop
  in use is itself reachable by the table that uses it. This always holds while no link costs more
  than 1000.
* *Lost withdrawals.* An infinite distance is advertised once and never repeated; if that datagram is
  lost, the periodic adverts leave the stale route in place. Tables that the periodic traffic leaves alone
  are the ideal ones if and only if no next hop in use is orphaned and none has given up the route
  (`PeriodicFixpointIff`).
* *Discarded adverts.* An advert of a present neighbour across a link of at most 1000 is discarded only if
  the sweep of the same round has taken away the route to that neighbour (`AdvertLookedAtIff`). That does no
  harm if and only if a later advert is on its way, or there is nothing to be learnt from it (`NextInvIff`).
  Otherwise a withdrawal lost in this way leaves a stale route for good: `WithdrawalDiscarded` is such a
  round, and `PhantomStaysForEver` says that no later step repairs it. So convergence after a cut is not
  unconditional. `NetworkConvergesIff` is the exact condition, from any tables and anything on the links: once
  the links to the outside have expired, the tables become ideal and stay so if and only if some cycle ends
  without a stale route. A network whose routers have all just started meets it
  (`StartedNetworkConverges`).

## Model

| member | source | states |
|---|---|---|
| LinkStateRouter.Router.UpdateFwdTable | routing-algorithms/ls_utils.cpp:265-458 | the finished table has exactly the reachable nodes, true shortest distances, and next hops on shortest paths by choices the search can make; where these are decided it is the canonical entry if and only if the rule is followed up to it, and all entries are canonical if the matrix agrees with the router's own links, whatever the extraction order |
| LinkStateRouter.Router.Search | routing-algorithms/ls_utils.cpp:306-452 | the search ends with nothing tentative and its invariant intact |
| LinkStateRouter.Router.ConfirmNext | routing-algorithms/ls_utils.cpp:309-452 | one iteration keeps the invariant and confirms one more node |
| LinkStateRouter.Router.Cheapest | routing-algorithms/ls_utils.cpp:309-322 | the first cheapest tentative entry, in insertion order |
| LinkStateRouter.Router.NeighbourEntries | routing-algorithms/ls_utils.cpp:281-291 | the direct neighbours establish the invariant |
| LinkStateRouter.Router.ScanNode | routing-algorithms/ls_utils.cpp:339-451 | scanning all links of a confirmed node brings the invariant back |
| LinkStateRouter.Router.ScanLink | routing-algorithms/ls_utils.cpp:343-450 | one link lowers, redirects, adds or leaves the tentative entry of its far end, and touches nothing else |
| LinkStateRouter.Router.BreakTie | routing-algorithms/ls_utils.cpp:369-431 | the next hop after a tie: unchanged without other tied neighbours, otherwise decided by comparison with the lowest of them |
| ForwardingTable.TieRule | routing-algorithms/ls_utils.cpp:369-431 | what the tie repair settles on: the lowest last hop where matrix and connection state agree about the own link, and what it does where they do not |
| ForwardingTable.ChosenTie | routing-algorithms/ls_utils.cpp:415-430 | the same for the sets of last hops that the repair compares, before and after one more is found |
| ForwardingTable.ScanRule | routing-algorithms/ls_utils.cpp:343-450 | the outcome of one link keeps all parts of the search invariant |
| ForwardingTable.ConfirmStep | routing-algorithms/ls_utils.cpp:324-327 | moving a cheapest entry to the confirmed ones keeps the invariant, so its cost is final |
| SearchOutcome.SearchSound | routing-algorithms/ls_utils.cpp:306-452 | an exhausted search yields shortest distances and next hops that start shortest paths, whatever the own links say |
| SearchOutcome.OutcomesIff | routing-algorithms/ls_utils.cpp:306-452 | the tables an exhausted search satisfies its invariant with are exactly those that step back along choices of last hops |
| SearchOutcome.OutcomeExists | routing-algorithms/ls_utils.cpp:306-452 | there is such a table for every graph and matrix |
| SearchOutcome.RuleMetIff | routing-algorithms/ls_utils.cpp:384-430 | for every destination that is decided, fairly or by a node that misleads, the entry is the one the rule asks for if and only if all nodes of its canonical path are decided fairly |
| SearchOutcome.DecidedByGraphIff | routing-algorithms/ls_utils.cpp:309-322 | the next hop is the same whatever the order of extraction if and only if all choices lead to it |
| SearchOutcome.NearestIsChosen | routing-algorithms/ls_utils.cpp:415-430 | when only the matrix knows the own link and no last hop is below the router, a strictly nearest last hop is the only choice |
| SearchOutcome.OrderDecides | routing-algorithms/ls_utils.cpp:309-322 | each of several nearest ones has an outcome with its next hop |
| SearchOutcome.FitsIsCanonical | routing-algorithms/ls_utils.cpp:265-458 | with agreeing own links the table equals the canonical table, a function of the graph alone |
| SearchOutcome.MisledAboutOwnLink | routing-algorithms/ls_router.cpp:291-299 | a network in which a link-state packet about the own link makes the search end, as it does, with another next hop than the rule asks for |
| ForwardingTable.CanonicalPathIsShortest | routing-algorithms/readme.md:39-44 | the canonical path is shortest, and no other shortest path, the direct link included, has a smaller node before the destination |
| HopByHop.DeliversShortest | routing-algorithms/ls_router.cpp:375-410 | when all routers hold one matrix, forwarding by each router's own table delivers along a path whose cost is the shortest distance, without loops |
| HopByHop.UnreachableIsDropped | routing-algorithms/ls_router.cpp:387-392 | a packet for a node that cannot be reached is dropped where it starts |
| HopByHop.CanonicalSuffix | routing-algorithms/readme.md:39-44 | the rest of a canonical path is the canonical path of its next node |
| HopByHop.TraceIsCanonical | routing-algorithms/ls_router.cpp:393-410 | the path a packet takes is exactly the canonical path of its origin, so all routers on it agree |
| HopByHop.NextHopIsCanonical | routing-algorithms/ls_router.cpp:395-409 | each router forwards to the first node of its canonical path |
| HopByHop.CanonicalTablesConverge | routing-algorithms/ls_utils.cpp:265-458 | every symmetric matrix has tables to which the delivery results apply |
| HopByHop.SoundOnCommonMatrix | routing-algorithms/ls_utils.cpp:281-291 | a table computed on the router's own view is sound for the common matrix |
| LinkStateRouter.Router.constructor | routing-algorithms/ls_router.cpp:439-488 | no links, empty matrices and table, the configured costs; the matrix agrees with the own links |
| LinkStateRouter.Router.HeardFrom | routing-algorithms/ls_router.cpp:79-94 | a new neighbour: link entered both ways, table rebuilt, every link announced under its next number; nothing happens for a known one; agreement about the own links is kept |
| LinkStateRouter.Router.LinkDown | routing-algorithms/ls_router.cpp:106-117 | a lost neighbour: link entered as -1 both ways, table rebuilt, the loss announced under the next number; agreement about the own links is kept |
| LinkStateRouter.Router.CostChange | routing-algorithms/ls_router.cpp:193-247 | the cost (a positive one) is noted; if the link is up the matrix, the table and the announcement follow; agreement about the own links is kept |
| LinkStateRouter.Router.ReceiveLsp | routing-algorithms/ls_router.cpp:265-342 | accepted exactly when newer and with a hop left; then number, matrix, own cost and table follow and the packet goes to all neighbours but the one it came from; agreement about the own links is kept unless the packet is about one of them, and then if and only if it gives a positive cost to a link that is up or another one to a link that is down |
| LinkStateRouter.Router.OwnLinkHeard | routing-algorithms/ls_router.cpp:296-309 | when a packet about an own link leaves matrix, costs and connection state in agreement |
| LinkStateRouter.Router.OwnLinksAgreeIff | routing-algorithms/ls_utils.cpp:281-291 | what agreement means link by link: the cost of a link that is up, nothing positive for one that is down |
| LinkStateRouter.Router.CurrentIsCanonical | routing-algorithms/ls_router.cpp:60-343 | while events keep the agreement, the table is the canonical one of the present graph |
| LinkStateRouter.Router.Route | routing-algorithms/ls_router.cpp:375-411 | deliver, unreachable, or forward to the table's next hop |
| LinkStateRouter.Router.FloodLsp | routing-algorithms/ls_utils.cpp:90-174 | every link that is up or known to be down is announced once, under a number one higher, in order; what that comes to is said by the next two rows |
| FloodRefinement.FloodTellsAll | routing-algorithms/ls_utils.cpp:97-173 | the packets of a flood are exactly these, once each and in order: to every neighbour, about every link that is up or entered as -1, with the cost in the router's own matrix, the next number and 13 hops |
| FloodRefinement.FloodIsRun | routing-algorithms/ls_utils.cpp:90-174 | in every network the router is part of, a flood is a run of one announcement per such link, in order and with these costs, and ends with the router's packets in flight, its counters and its matrix row |
| FloodRefinement.RouterFloods | routing-algorithms/ls_utils.cpp:111 | both hold for the class, whenever its matrix agrees with its own links |
| FloodRefinement.RecipientsAscend | routing-algorithms/ls_utils.cpp:123-134 | the neighbours a packet is sent to are listed once each, in order |
| LinkStateRouter.Router.Announce | routing-algorithms/ls_utils.cpp:176-211 | one announcement to all neighbours; only its own number changes |
| LinkStateRouter.Router.Broadcast | routing-algorithms/ls_router.cpp:326-330 | exactly the neighbours other than self and the exception receive the packet |
| LinkStateRouter.SendsAreCopies | routing-algorithms/ls_router.cpp:326-330 | a router's sends are the packets that the network model puts in flight for it |
| Flooding.RunAuthority | routing-algorithms/ls_router.cpp:228-246 | in every run no router and no packet has a number above its source's counter, and each number stands for one cost |
| Flooding.RunAgreement | routing-algorithms/ls_router.cpp:291-309 | no router accepts a packet naming itself as source, and routers with equal numbers accepted equal costs |
| Flooding.OwnPacketRejected | routing-algorithms/ls_router.cpp:291-309 | the source of a packet never takes it over |
| Flooding.AcceptedOnce | routing-algorithms/ls_router.cpp:291-294 | each router accepts each number of a link at most once |
| FloodCompleteness.FloodComplete | routing-algorithms/ls_router.cpp:284-332 | on a static lossless component of at most 13 routers, once nothing is in flight every router connected to the source holds its latest number |
| FloodCompleteness.StepKeepsCovered | routing-algorithms/ls_router.cpp:284-332 | every neighbour of a router with the latest number has it or has a packet with it on its way, after every step |
| FloodCompleteness.OriginateCovers | routing-algorithms/ls_utils.cpp:99-134 | an announcement starts such a wave |
| FloodCompleteness.HopsLeft | routing-algorithms/ls_router.cpp:284-291 | a packet of the wave that reaches a router without the number still has a hop left, because its trail is free of repetition |
| FloodCompleteness.BeyondTtlSilent | routing-algorithms/ls_utils.cpp:112 | on a static network no router more than 12 links away ever hears of an announcement |
| FloodAgreement.RunMatrix | routing-algorithms/ls_router.cpp:291-299 | in every run, what a router's matrix says about a foreign link is the cost of the latest announcement it took over from one of its ends |
| FloodAgreement.FloodAgree | routing-algorithms/ls_router.cpp:284-332 | after a flood on a still, connected network whose links' ends announce the same costs, all routers hold the same matrix |
| FloodAgreement.FloodedNetworkDelivers | routing-algorithms/ls_router.cpp:284-410 | and their own tables then deliver every packet along a shortest path |
| WindowReceiver.Receiver.constructor | sliding-window-algorithm/reliable_receiver.cpp:22-26 | empty slots, first frame expected, no end seen |
| WindowReceiver.Receiver.StoreFrame | sliding-window-algorithm/reliable_receiver.cpp:66-77 | a free slot takes the payload and its size; a taken one stays |
| WindowReceiver.Receiver.FlushSlot | sliding-window-algorithm/reliable_receiver.cpp:96-99 | the slot's bytes are appended to the output and the slot is cleared |
| WindowReceiver.Receiver.DrainSlots | sliding-window-algorithm/reliable_receiver.cpp:80-100 | all frames from the front of the window up to the first missing one are written |
| WindowReceiver.Receiver.Advance | sliding-window-algorithm/reliable_receiver.cpp:104-121 | the window moves on, its predecessor is acknowledged, the end is tested |
| WindowReceiver.Receiver.HandleRecvFrame | sliding-window-algorithm/reliable_receiver.cpp:36-124 | ring, output, acknowledgement and result are those of the receiver function that refines the reassembler |
| Reassembly.WindowTest | sliding-window-algorithm/reliable_receiver.cpp:52 | the test sees the frame's true distance from the first missing one, wrapped once for old frames |
| Reassembly.EndReportedIff | sliding-window-algorithm/reliable_receiver.cpp:47-121 | the end is reported by exactly the frame that lies in the window and completes the delivery of everything up to the flagged frame |
| Reassembly.RunEndReported | sliding-window-algorithm/reliable_receiver.cpp:116-121 | the same after every run from the start |
| Reassembly.ReceiveRefines | sliding-window-algorithm/reliable_receiver.cpp:52-114 | for every frame in reach the ring behaves like the unbounded reassembler: window position, frames kept, output, acknowledgement |
| Reassembly.RunRefines | sliding-window-algorithm/reliable_receiver.cpp:52-114 | the same for every sequence of arrivals, across any number of wraps, when W divides M |
| Reassembly.SlotsAgreeIff | sliding-window-algorithm/reliable_receiver.cpp:63-84 | in a given window all slots agree if and only if W divides M or the window ends before the wrap |
| Reassembly.SlotsAlwaysAgreeIff | sliding-window-algorithm/reliable_receiver.cpp:63-84 | they agree at every position if and only if W divides M |
| Reassembly.ShippedSlotsDisagree | sliding-window-algorithm/reliable_receiver.cpp:17-18 | the shipped constants are outside that condition, exactly from position 4831 on |
| Reassembly.ReceiveRefinesIff | sliding-window-algorithm/reliable_receiver.cpp:52-114 | at a window position the receiver behaves like the reassembler, whatever it holds and whatever arrives, if and only if that condition holds |
| Reassembly.ShippedWrongOutput | sliding-window-algorithm/reliable_receiver.cpp:63-114 | with the shipped constants a frame beyond the wrap, or a late duplicate of frame 0, is written in a wrong place, and a frame that never arrived is acknowledged |
| Reassembly.ReassembleFaithful | sliding-window-algorithm/reliable_receiver.cpp:66-114 | whatever the order and the repetitions, the output is the in-order prefix, each piece once |
| WindowSender.Sender.constructor | sliding-window-algorithm/reliable_sender.cpp:47-66 | the sender's start state |
| WindowSender.Sender.AppendFrame | sliding-window-algorithm/reliable_sender.cpp:179-224 | the next bytes of the file become the last frame of the window, with the end flag on the last of all |
| WindowSender.Sender.SendPlaced | sliding-window-algorithm/reliable_sender.cpp:168-269 | one round of the pass: append, resend on timeout (halving once), or skip; `PassOutcome.PassTimers` says what all rounds come to |
| WindowSender.Sender.SendWindow | sliding-window-algorithm/reliable_sender.cpp:153-272 | a whole pass has the state and output of the pass function |
| WindowSender.Sender.PopFrames | sliding-window-algorithm/reliable_sender.cpp:353-356 | exactly the acknowledged frames leave the window |
| WindowSender.Sender.TakeUpTo | sliding-window-algorithm/reliable_sender.cpp:331-362 | timer sample, frames popped, last acknowledgement moved |
| WindowSender.Sender.AwaitAck | sliding-window-algorithm/reliable_sender.cpp:290-363 | the reaction to an acknowledgement, or to the old bytes again after a timeout; what it comes to is said by `PassOutcome.EveryAckOpens`, `AckTimesItsFrame` and `AckOutside` |
| WindowSender.Sender.UpdateTimer | sliding-window-algorithm/reliable_sender.cpp:333-351 | the estimate after a sample, whose weights are those of `Sending.SampleWeights` |
| Sending.SampleWeights | sliding-window-algorithm/reliable_sender.cpp:336-351 | the truncating estimator follows the weighted averages: the first sample gives a timeout of three times itself, up to 2 less; later 7/8 and 1/8, 3/4 and 1/4, within 7 and 3, and the timeout is the smoothed time plus four deviations |
| Sending.SmoothedInRange | sliding-window-algorithm/reliable_sender.cpp:337-342 | over every sequence of samples the smoothed time stays in their range, up to 56 below |
| Sending.RttBounds | sliding-window-algorithm/reliable_sender.cpp:333-351 | for all samples in [0, B]: smoothed time in [0, B], deviation in [-B, B], timeout in [-4B, 5B] |
| Sending.TimeoutNegativeIff | sliding-window-algorithm/reliable_sender.cpp:333-351 | exactly when a sample makes the timeout negative, in terms of the sample and the estimates before it |
| Sending.TimeoutMayBeNegative | sliding-window-algorithm/reliable_sender.cpp:347-351 | samples from the start on that meet that condition |
| Sending.AckDistance | sliding-window-algorithm/reliable_sender.cpp:313 | when the truncated distance is non-negative, and that it then is the distance modulo M |
| Sending.AckBeyondWrapIgnored | sliding-window-algorithm/reliable_sender.cpp:313-318 | acknowledgements beyond the wrap are not in the window while it starts before it |
| Alignment.PassSpec | sliding-window-algorithm/reliable_sender.cpp:153-272 | a pass keeps the window aligned, sends only frames of the window, and sends every new one |
| PassOutcome.PassTimers | sliding-window-algorithm/reliable_sender.cpp:153-272 | an old frame is sent if and only if its timer has run out at the reading for its place and the place is inside the congestion window, halved from the first such place on; what is sent gets the later reading, the rest keep theirs; the congestion window is halved exactly once, when above 1 and a timer in reach has run out; new frames fill the window |
| PassOutcome.QuietPass | sliding-window-algorithm/reliable_sender.cpp:229-238 | a pass that finds no timer run out sends exactly the new frames, in order, and leaves old frames and congestion window alone |
| PassOutcome.PassFromOutcome | sliding-window-algorithm/reliable_sender.cpp:153-272 | the same for the rest of a pass from any place on |
| PassOutcome.EveryAckOpens | sliding-window-algorithm/reliable_sender.cpp:303-311 | every number handled, new or repeated, and every timeout adds one to the congestion window below its limit |
| PassOutcome.GrowsWithWaits | sliding-window-algorithm/reliable_sender.cpp:146-375 | over every run in which no timer runs out, the congestion window is the limit or its first size plus the number of waits |
| PassOutcome.OpensFromStart | sliding-window-algorithm/reliable_sender.cpp:49 | from the start that is half the window size plus the waits, and the full size after the other half |
| PassOutcome.AckTimesItsFrame | sliding-window-algorithm/reliable_sender.cpp:313-362 | an accepted number ends the transfer exactly if its frame has the end flag; otherwise that frame's round trip is the sample, and it and those before it leave the window |
| PassOutcome.AckOutside | sliding-window-algorithm/reliable_sender.cpp:313-318 | a number in no window changes nothing but the congestion window |
| PassOutcome.FirstTimeout | sliding-window-algorithm/reliable_sender.cpp:59 | in every run from the start, until an acknowledgement has been taken, timers run out after two seconds |
| Alignment.AckNamesFrame | sliding-window-algorithm/reliable_sender.cpp:313-329 | an accepted acknowledgement names the frame at its distance, and ends the transfer exactly for the last frame |
| Alignment.AckAligned | sliding-window-algorithm/reliable_sender.cpp:308-362 | alignment after any acknowledgement |
| Alignment.RunAligned | sliding-window-algorithm/reliable_sender.cpp:146-375 | over every run, wraps included: numbers, data, file position, last-frame number and window sizes stay aligned |
| Alignment.PiecesAreFile | sliding-window-algorithm/reliable_sender.cpp:179-214 | the frames' payloads put together are the first bytes of the file, and all of them together the bytes to transfer |
| Transfer.RunInv | sliding-window-algorithm/reliable_sender.cpp:146-375 | the invariant of sender, receiver and network in every state of every run |
| Transfer.EndToEndSafety | sliding-window-algorithm/reliable_receiver.cpp:36-124 | the output is always a prefix of the bytes to transfer, and all of them once either side is done |
| Transfer.CrossPartyOrder | sliding-window-algorithm/reliable_sender.cpp:313-362 | the receiver is between the ends of the sender's window, acknowledgements name delivered frames or nothing, frames lie below the receiver's window end |
| Transfer.ReplayHarmless | sliding-window-algorithm/reliable_sender.cpp:290-325 | a receive timeout changes nothing but the congestion window, in every state of every run |
| Transfer.ShippedTransfers | sliding-window-algorithm/reliable_sender.cpp:22-26 | the transfer results apply to every file of up to 4929 full frames with the shipped constants |
| Transfer.LandsBeyond | sliding-window-algorithm/reliable_receiver.cpp:52-77 | within the bound, an old frame that passes the window test lands in the slot of a frame beyond the end |
| TransferBound.BoundIff | sliding-window-algorithm/reliable_receiver.cpp:36-124 | with given constants every transfer of n frames has a correct output in every state of every run if and only if n is below the bound |
| TransferBound.TooMany | sliding-window-algorithm/reliable_receiver.cpp:52-114 | with more frames there is a file and a run in which a late duplicate of frame 0 is written in the place of a later frame |
| Transfer.NothingYet | sliding-window-algorithm/reliable_receiver.cpp:109 | the number acknowledged before anything has been delivered is in no window |
| Transfer.Progress | sliding-window-algorithm/reliable_sender.cpp:318-362 | delivering the oldest frame and the acknowledgement it provokes is possible and advances the sender or ends it |
| Transfer.PassFillsWindow | sliding-window-algorithm/reliable_sender.cpp:153-270 | after a pass there is an oldest frame |
| Transfer.LateClockResends | sliding-window-algorithm/reliable_sender.cpp:226-270 | once its timer has run out, the oldest frame of the window is sent again |
| Transfer.CanAlwaysFinish | sliding-window-algorithm/reliable_sender.cpp:146-375 | from every state of every run, whatever the clock shows from then on, alternating passes and waits and deliveries of what has been sent complete the transfer with exactly the right output |
| Transfer.FramesSurviveTheWire | sliding-window-algorithm/utils.cpp:5-54 | every frame of every run fits its datagram and is read back as it was written |
| Codec.FrameRoundTrip | sliding-window-algorithm/utils.cpp:5-54 | reading a created frame gives number, size, payload and flag, whatever follows it |
| Codec.FrameInjective | sliding-window-algorithm/utils.cpp:5-17 | different frames have different bytes |
| Codec.WordRoundTrip | sliding-window-algorithm/utils.cpp:20-34 | every int survives the wire, so acknowledgements do |
| Codec.WireOrder | sliding-window-algorithm/utils.cpp:22-23 | most significant byte first: words on the wire are in the order of their numbers, byte by byte |
| Codec.FrameLayout | sliding-window-algorithm/utils.cpp:7-13 | flag, number, size and payload lie where they belong, spelled out byte by byte |
| Codec.OnTheWire | sliding-window-algorithm/utils.cpp:22-23 | the four bytes of an int, negative ones in two's complement |
| Codec.CreateSendFrame | sliding-window-algorithm/utils.cpp:5-17 | exactly 9 + size bytes are written |
| Codec.ReadSendFrame | sliding-window-algorithm/utils.cpp:38-54 | the contents of the frame; the data buffer is untouched beyond the payload |
| Codec.CreateAckFrame | sliding-window-algorithm/utils.cpp:20-25 | the four bytes of an acknowledgement, nothing else |
| Codec.ReadAck | sliding-window-algorithm/utils.cpp:29-34 | the number in the first four bytes |
| DistanceVector.FixpointIff | routing-algorithms/vec_router.cpp:163-205 | tables without orphaned next hops that no heartbeat or advert changes are exactly the ideal tables: shortest distance up to 1000, lowest neighbour on a shortest path |
| DistanceVector.CheapLinksFixpoint | routing-algorithms/vec_router.cpp:322-327 | with link costs up to 1000 nothing else is needed: quiet if and only if ideal |
| DistanceVector.QuietIsIdeal | routing-algorithms/readme.md:36-37 | quiet tables hold shortest distances and the lowest next hop |
| DistanceVector.IdealIsQuiet | routing-algorithms/vec_router.cpp:96-104 | the ideal tables are left alone by every heartbeat and every advert, poisoned and infinite ones included |
| DistanceVector.IdealUnique | routing-algorithms/readme.md:36-37 | there is only one ideal entry |
| DistanceVector.PhantomRouteStays | routing-algorithms/vec_router.cpp:322-334 | quiet tables with a route to an isolated node, behind a link dearer than 1000 |
| DistanceVector.PeriodicFixpointIff | routing-algorithms/vec_router.cpp:107-120 | tables that heartbeats and periodic adverts leave alone are ideal if and only if no next hop in use is orphaned or has given up the route |
| DistanceVector.LostWithdrawalIsNotRepaired | routing-algorithms/vec_router.cpp:111-118 | tables with a stale route that the periodic adverts leave in place |
| VectorRouter.Router.constructor | routing-algorithms/vec_router.cpp:366-395 | the router knows only itself, at distance 0 |
| VectorRouter.Router.UpdateDistVec | routing-algorithms/vec_router.cpp:163-209 | the one entry follows the four conditions and the cap, the neighbours are told exactly when it fires, table sanity is kept |
| VectorRouter.Router.SendDistVecUpdate | routing-algorithms/vec_router.cpp:78-105 | every neighbour is told, the next hop is told -1 |
| VectorRouter.TellIsAdvert | routing-algorithms/vec_router.cpp:96-104 | what is told to each neighbour is the advert of the network model |
| VectorRouter.Router.CheckUpdateTime | routing-algorithms/vec_router.cpp:107-120 | when due, all finite entries are told, in order |
| VectorRouter.UpdatesOncePerSecond | routing-algorithms/vec_router.cpp:107-120 | of the checks after a periodic update, the first at least one second later brings the next one, and none before |
| VectorRouter.Router.DropRoutes | routing-algorithms/vec_router.cpp:222-227 | exactly the routes through the lost neighbour become infinite, and that is told |
| VectorRouter.Router.CheckHeartbeats | routing-algorithms/vec_router.cpp:212-230 | exactly the silent neighbours go, with the routes through them; if every route led to a present neighbour before, it does so afterwards |
| VectorRouter.SilentForThree | routing-algorithms/vec_router.cpp:212-218 | in a round, a neighbour is lost exactly when nothing has come from it for three seconds |
| VectorRouter.StillKept | routing-algorithms/vec_router.cpp:215-228 | losing neighbours one after the other leaves the routes that lead through none of them |
| VectorRouter.Router.HearFrom | routing-algorithms/vec_router.cpp:259-265 | the sender becomes a neighbour and its link is offered as a route |
| VectorRouter.Router.ReceiveCost | routing-algorithms/vec_router.cpp:285-297 | the cost, whatever it is, is noted, and the direct route follows while the link is up; table sanity is kept for positive ones |
| VectorRouter.CostFollows | routing-algorithms/vec_router.cpp:285-297 | with the cost of a link that is up, the route along it follows: up to 1000 the neighbour is reached at that cost at most, and exactly at it along the link; a dearer link is no route |
| VectorRouter.CostOfDownLink | routing-algorithms/vec_router.cpp:289-297 | the cost of a link that is down changes no route |
| VectorRouter.Router.ReceiveDist | routing-algorithms/vec_router.cpp:314-335 | an advert plus the link cost is offered, unless there is no route to its sender |
| VectorRouter.Router.Hear | routing-algorithms/vec_router.cpp:254-269 | what every datagram brings about before its request is looked at, with three readings of the clock |
| VectorRouter.Router.Answer | routing-algorithms/vec_router.cpp:274-336 | what the request itself brings about |
| VectorRouter.Router.Round | routing-algorithms/vec_router.cpp:239-337 | the whole new state of one round and all it sends; unless a cost that is not positive is set, self stays at (0, self), infinite exactly without a next hop, finite distances at most 1000 |
| VectorRouter.RoundSafeIff | routing-algorithms/vec_router.cpp:259-269 | every next hop is connected after a round, from every state in which it was before and for every datagram, if and only if less than the timeout passes between stamp and sweep |
| VectorRouter.RouteThroughExpired | routing-algorithms/vec_router.cpp:322-327 | otherwise an advert can install a route through a node that is no neighbour any more |
| VectorRouter.AdvertLookedAtIff | routing-algorithms/vec_router.cpp:322 | the advert of a router just heard from over a link of at most 1000 is looked at unless the sweep has taken away the route to it |
| LossyVector.LossyFloorKept | routing-algorithms/vec_router.cpp:167-204 | in every run on any network, the least finite distance to a node that is cut off never sinks, and entries installed since exceed it |
| RouteExchange.NextInvIff | routing-algorithms/vec_router.cpp:163-230 | what neighbours know about each other on links that keep the order is kept by a step, whatever expires, if and only if the step does not discard an advert that is the last on its way and says something new |
| RouteExchange.RunInv | routing-algorithms/vec_router.cpp:163-230 | and so over runs without such a step |
| RouteExchange.WithdrawalDiscarded | routing-algorithms/vec_router.cpp:267-334 | a round that expires the route to a neighbour and then discards its withdrawal |
| RouteExchange.PhantomStaysForEver | routing-algorithms/vec_router.cpp:322-334 | after it, no step whatever removes the route to a node that cannot be reached |
| RouteExchange.LinksPlayNoPart | routing-algorithms/vec_router.cpp:173-179 | an offer by a neighbour has the same outcome whatever other links are up |
| RouteExchange.LookedIff | routing-algorithms/vec_router.cpp:322 | when an advert passes the guard on the route to its sender |
| Convergence.FloorRises | routing-algorithms/vec_router.cpp:167-204 | two cycles of updates raise the least finite distances towards the true ones |
| Convergence.PhantomRoutesDie | routing-algorithms/vec_router.cpp:167-169 | from a state with the invariant and without links to the outside, after 2 * 1001 cycles no router of a part has a route to a node that cannot be reached from it, however the steps interleave |
| Convergence.Converges | routing-algorithms/vec_router.cpp:163-205 | from such a state, after 4 * 1000 + 4 cycles every entry is the ideal one and stays so: shortest distance up to 1000, lowest neighbour on a shortest path |
| Convergence.NoStaleIff | routing-algorithms/vec_router.cpp:107-120 | from whatever tables, at the end of every cycle the invariant holds if and only if no route is stale |
| Convergence.ConvergesOnceFresh | routing-algorithms/vec_router.cpp:163-205 | from whatever tables, once a cycle ends without a stale route, every entry is ideal 4 * 1000 + 4 cycles later and stays so |
| RoundTraffic.AboutExpiry | routing-algorithms/vec_router.cpp:212-230 | a neighbour that stays is told exactly once, and only then, that a route through one that goes is lost |
| VectorNetwork.RoundIsSteps | routing-algorithms/vec_router.cpp:239-337 | one round of a router with its whole table is five steps of the exchange about each destination: link up, heartbeat, periodic update, sweep, request |
| NetworkRuns.RunIsRun | routing-algorithms/vec_router.cpp:239-337 | one run of the network is a run of the exchange about every destination |
| NetworkRuns.CycleIsCycle | routing-algorithms/vec_router.cpp:107-120 | and a cycle of the network, in which all updates have been due and all links have been read, is one of every exchange |
| NetworkRuns.NetworkConverges | routing-algorithms/readme.md:36-37 | in one run of the network from a state with the invariant, all tables of the part are ideal after 4 * 1000 + 4 cycles and stay so |
| NetworkRuns.StartedNetworkConverges | routing-algorithms/vec_router.cpp:366-395 | in particular all tables of a network whose routers have just started, 4 * 1000 + 4 cycles after all links have come up |
| NetworkRuns.NetworkConvergesIff | routing-algorithms/vec_router.cpp:163-230 | from whatever tables, in a run whose cycles never cease all tables become ideal and stay so if and only if some cycle ends without a stale route |
| NetworkRuns.PlausibleInOrder | routing-algorithms/vec_router.cpp:78-105 | every state with routes over present neighbours and sensible adverts on its links is such a start |
| NetworkRuns.RestInOrder | routing-algorithms/vec_router.cpp:212-230 | and stays so, while links to the outside expire one by one |
| Convergence.CutFromRest | routing-algorithms/vec_router.cpp:212-230 | cutting any part off a network at rest establishes the invariant; its links to the outside expire later, one by one |
| Convergence.RestIsStatic | routing-algorithms/vec_router.cpp:212-230 | once the last of them has expired, and if no advert has done harm until then, the rest of the run is one to which convergence applies |
| RouteExchange.FreshStart | routing-algorithms/vec_router.cpp:390-392 | routers that know only themselves, and have heard from nobody, have the invariant |

## Left out

- Sockets, address parsing, threads, logs and files: sends go to a list or a set, input bytes and the
  file are values, the written file is a sequence. The wire formats of `ls`, `forward`, `send`, `cost`
  and `dist` datagrams are not modelled.
- Wall-clock reads: every reading is an arbitrary input. In the link-state router the silence test and
  the periodic flood are events that may happen at any time, and the sweep over all neighbours is one
  event per neighbour.
- Datagrams that a router would have to send to itself.
- Integer overflow, and link costs that are not positive: costs and sums are mathematical integers.
- `neighborList` in `updateFwdTable`, which is written and never read.
- The sender's frames are values in a sequence; in the program they are heap objects owned by a deque.
- Short reads, files shorter than the bytes to transfer, transfers of zero bytes, and the exits on
  socket errors.
- Transfers of M - 1 frames or more: `Transfer` covers those in which no sequence number is used twice and one is
  left over; the wrap itself only the lemmas about slots, distances, alignment and refinement.
- Liveness of the last handshake: the receiver sends three last acknowledgements and exits, and if all
  are lost the sender does not end. In `Transfer` what has been sent stays deliverable, so
  `CanAlwaysFinish` says that completion stays possible, not that it happens.
- The sender's receive buffer is uninitialised in the program. `Transfer` takes it to hold a number
  that is in no window of the transfer.
- Flooding beyond the reach of the TTL, loss during a flood and restarts that reset counters: the only
  claims are `BeyondTtlSilent` and, with losses, `RunAuthority`, `RunAgreement` and `AcceptedOnce`.
- A distance-vector node whose cost file cannot be opened, whose entry for itself is then never set.
- The forwarding of user messages by the distance-vector router.
- LinkStateRouter.Router.CostChange: costs of zero or less, which the program takes as well, are not covered.
- Convergence.Converges: the links inside the part and their costs do not change, they lose nothing and keep
  the order, and cost at most 1000. On other networks `LossyFloorKept` is the claim.
- VectorNetwork.RoundIsSteps: neighbours inside the part are heard from in time, and less than the timeout passes
  between the stamp and the sweep of a round. Links to the outside only expire; the links of the part come up
  one by one.
- SearchOutcome.OrderDecides: "whatever the order" ranges over every order in which nodes of one distance can be
  extracted. Which of them the insertion order picks for a given matrix is not worked out.
- The repository's other programs: the manager, the topology scripts, `listenForNeighbors`.
