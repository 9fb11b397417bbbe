# IT-SDN verification

A Dafny model of the algorithms and protocols of IT-SDN, a software-defined
networking stack for wireless sensor nodes. It covers the default build:
two-octet addresses, six-octet packet headers, packets of at most 116 octets,
packet treatment in the queues on, no unidirectional radio duty cycling and no
one-hop reliability.

The files follow the stack.

- **Planning multiple flow setups** (`FlowTable`, `HashTable`, `RuleGraph`,
  `PathConflicts`, `Recording`, `LoopWalks`, `DropRules`, `PathPlanner`): the
  controller mirrors a flow's rules in a graph, walks it, and gives every edge to
  one path. `PathPlanner` is the imperative planner, proved against `Recording`
  on every table on which its walks return. `RuleGraph` and `PathConflicts` are
  the theory of what it computes on tables without loops; the main result there
  is that cutting overlapping paths never loses a changed rule. `LoopWalks` says
  exactly when a walk returns that comes into a loop, and `DropRules` carries the
  results over to drop rules, the loops that the controller makes itself.
- **Executing them** (`PacketBytes`, `SourceRoute`, `MultiFlowSetup`,
  `MultiFlowDelivery`, `PlanExecution`, `PlanInterleaving`, `SourceRoutedSetup`):
  packets as octets, handled in place by one node after the other. What one
  packet does is stated exactly, nodes that have seen it before included; from
  that follows which changed rules the packets of a plan bring into force, one
  after the other and in any interleaving.
- **Aggregation** (`Subpackets`, `Aggregation`, `SourceTail`, `Deaggregation`,
  `MergeHistory`, `Supersede`, `MergedArrivals`): merging packets in place,
  deleting superseded sub-packets in place, finding the tail of source-routed
  packets, and splitting, which undoes any tree of merges.
- **Queues and sending** (`PacketQueue`, `QueueTreatment`, `SourceTreatment`,
  `PacketTreatment`, `Decisions`, `QueueRuns`, `DataRuns`, `SendProcess`): the
  ring queues over one buffer pool, the decision for each queued packet, first
  for source-routed and other types apart and then for all, and the machine that
  sends one packet at a time. `Decisions` says what is decided in terms of the
  octets of the two packets, and `QueueRuns` and `DataRuns` what that means for a
  queue over any run: the latest neighbor report of every node waits, and no data
  gets lost.
- **Protocol state** (`RetxWindow`, `SeqnoTable`, `Discovery`): the
  retransmission window, the duplicate table, and controller discovery as a
  network of nodes whose beacons may be lost, repeated and overtaken.
- **Serial line** (`SerialFraming`): octet stuffing after section 4.2 of
  RFC 1662, with flag and escape octets only.

Code that changes state in place is a class or a method over arrays, and is
proved equal to a function of the old state. What the system promises is then
proved of these functions, for all inputs and for all runs. Automatic induction
is off for every lemma, so that each proof rests on the steps that it spells out.

Clocks, the radio, random numbers, routes computed elsewhere and the outcome of
allocations are parameters of the methods that need them.

## Where the code does not do what it seems to

Each of these is a lemma or a contract below.

- The size check before a merge lets two unmerged packets with 116 octets in
  all through; the result has 117 (`Aggregation.MergedLenIs`,
  `Aggregation.CombinePackets`). The octet behind the buffer is part of the
  arrays there.
- A source-routed merge that is refused for its number of sub-packets leaves
  the queued packet without its tail (`SourceTail.CombineSrcPackets`,
  `PacketTreatment.EightOthersLoseTail`). That is the only treatment after which
  a queued packet cannot be treated again (`PacketTreatment.DecisionKeepsGoodIff`).
- De-aggregation of source-routed packets takes the tail from one octet too
  early, and what the node then makes of the first part's type and destination
  is handed on with all the others
  (`Deaggregation.SourceRoutedPartsAreMisplaced`).
- The variable `same_src` is true when the sources differ: an unmerged match is
  replaced for a different source and left alone for the same one
  (`Supersede.ScanSingle`).
- A merged packet meeting a merged entry can delete a sub-packet that nothing
  supersedes (`Supersede.MergedArrivalDeletesWrongOne`). It does not if the old
  sub-packets stand in the order of the new ones that supersede them
  (`MergedArrivals.SameOrderFilters`), and only then if no old one is recorded
  for two new ones (`MergedArrivals.ArrivalFiltersIff`), as with different keys
  (`MergedArrivals.KeyedArrivalFiltersIff`); with one recorded twice the order is
  not needed (`MergedArrivals.RecordedTwiceMayFilter`).
- A multiple flow setup behind a truncated source route installs its first rule
  at the wrong node (`MultiFlowDelivery.TruncatedPacketMisinstalls`).
- A multiple flow setup is dropped by the first node that has to take it twice,
  as a relay and as a node of the path or as two hops; the rules from there on
  are not installed (`MultiFlowDelivery.OnePacketInstallsPath`,
  `MultiFlowDelivery.RelayOnThePathIsSkipped`), although the plan has cleared
  their flags (`PlanExecution.ChangeInForceIff`). If another packet of the
  controller overtakes it there, the node forgets that it has had it and takes it
  again (`PlanInterleaving.OvertakenIsTakenAgain`).
- A route of 22 to 30 nodes that is set up anew survives as one path, for which
  the set list of a packet has no room (`PlanExecution.NewRouteIsOneSurvivor`).
- The path walk need not return when rules lead into a loop. It returns exactly
  if of any three nodes in a row that end on the loop one has a changed rule, on
  the way in or round the loop; but if the run comes in with 30 nodes, none of
  them on the loop, only if so round the loop and not on the way in
  (`LoopWalks.WalkReturnsIff`). One unchanged rule that leads to a node with an
  unchanged drop rule is enough for it not to return
  (`LoopWalks.IdleDropRuleNeverReturns`).
- A changed drop rule is always unmarked, but planned only if no other node's
  rule leads to its node, or a chain from a node that no rule leads to comes to
  it with no changed rule on the three nodes in front (`DropRules.DropRuleOnTable`;
  the smallest case that loses one is `DropRules.DropRuleIsForgotten`).
- A retransmission that meets a full send queue is lost, although the comment
  says that it is scheduled again (`RetxWindow.FullQueueDropsPacket`).
- A lookup in the retransmission window can hit a stale copy when sequence
  numbers repeat (`RetxWindow.AckRemovesIff` says exactly when).
- A packet with source address 0.0 and sequence number 0 counts as a duplicate
  while the sequence table is not full (`SeqnoTable.DuplicateIff`).
- The PC's frame decoder never sets its overflow flag, cuts long frames, and
  stores a flag octet that follows an escape (`SerialFraming.Serializer.ProcessByte`).

## Model

| member | source | states |
|---|---|---|
| `FlowTable.FlowTable.Find` | it-sdn-contiki-ng/controller-server/sdn-flow-table-cache.c:216-232 | The search of the rule list finds the rule of a source and flow, or there is none. |
| `FlowTable.FlowTable.Add` | it-sdn-contiki-ng/controller-server/sdn-flow-table-cache.c:70-149 | A rule is added or updated in place, marked changed exactly when next hop or action differ, and there is still one rule per source and flow. |
| `FlowTable.RulesAreEntries` | it-sdn-contiki-ng/controller-server/sdn-graph.c:199-232 | Since a source has one rule per flow, the next-hop graph has at most one edge out of a node, and that edge is the cached rule. |
| `FlowTable.FlowTable.CurrentRoute` | it-sdn-contiki-ng/controller-server/sdn-util-controller.c:109-163 | Route rebuilding ends on every table, loops included: it follows a chain of real forwarding rules whose hop counts fall, and gives that chain and its last next hop, or nothing if the hop count stops falling. |
| `FlowTable.RouteIsRead` | it-sdn-contiki-ng/controller-server/sdn-util-controller.c:109-163 | Read off the table: every rule on the chain forwards, each is the rule of the next hop of the one before, for the same flow and with a lower hop count; the chain ends where no rule of the flow forwards, and the route is discarded exactly if it comes to a rule whose hop count is no lower. |
| `FlowTable.TrailSourcesDiffer` | it-sdn-contiki-ng/controller-server/sdn-util-controller.c:119-148 | No node is twice on such a chain. |
| `HashTable.HashTable.FindOrAdd` | it-sdn-contiki-ng/controller-server/sdn-graph.c:170-197 | The chained hash table behaves as a map; also used for the segment table (lines 375-402). |
| `PathPlanner.PathPlanner.BuildGraph` | it-sdn-contiki-ng/controller-server/sdn-graph.c:199-232 | The node table mirrors the flow's rules: neighbors, rule pointers, and in-degree 0 exactly for nodes no rule leads to. |
| `PathPlanner.PathPlanner.Visit` | it-sdn-contiki-ng/controller-server/sdn-graph.c:275-315 | Taking a node into the run under way: activation by a changed rule, the allowance of idle nodes, and what is recorded when it is spent or the run ends. |
| `PathPlanner.PathPlanner.GetNodePath` | it-sdn-contiki-ng/controller-server/sdn-graph.c:275-328 | On any table, loops included, on which the walk returns: the recursion with its shared flag prepends exactly the paths that `Recording.Record` specifies, last one first. |
| `PathPlanner.PathPlanner.GetAllPaths` | it-sdn-contiki-ng/controller-server/sdn-graph.c:330-369 | The two sweeps, on any table on which their walks return: they start at exactly the nodes no rule leads to, and then at changed nodes that no path has come to, leaving none out; the list holds exactly what walks from these record. |
| `Recording.RecordReturns` | it-sdn-contiki-ng/controller-server/sdn-graph.c:275-328 | What is recorded is defined exactly where the walk returns, |
| `Recording.RecordOfChain` | it-sdn-contiki-ng/controller-server/sdn-graph.c:275-328 | on a chain it is the walk of the loop-free theory, |
| `Recording.RecordedAreDistinct` | it-sdn-contiki-ng/controller-server/sdn-graph.c:317-327 | and whatever loops there are, no recorded path comes to a node twice. |
| `RuleGraph.WalkReturns` | it-sdn-contiki-ng/controller-server/sdn-graph.c:275-328 | On a loop-free graph the walk returns, within one call per node of the chain. |
| `RuleGraph.IdleLoopNeverReturns` | it-sdn-contiki-ng/controller-server/sdn-graph.c:317-327 | A walk that comes, not collecting, into a loop of unchanged rules never returns. |
| `LoopWalks.WalkReturnsIff` | it-sdn-contiki-ng/controller-server/sdn-graph.c:275-328 | Exactly when a walk returns whose chain, of any length, leads back into itself: one of any three consecutive nodes that end on the loop has a changed rule, on the first pass or round the loop, where a run that comes in full of other nodes has to be given up first. |
| `LoopWalks.DropRuleReturnsIff` | it-sdn-contiki-ng/controller-server/sdn-graph.c:317-327 | For a chain of any length into a drop rule: exactly if that rule or one of the two in front of it has changed and the run does not come in full. |
| `LoopWalks.IdleDropRuleNeverReturns` | it-sdn-contiki-ng/controller-server/sdn-graph.c:317-327 | The smallest table on which the walk never returns: an unchanged rule to a node with an unchanged drop rule. |
| `RuleGraph.WalkRecords` | it-sdn-contiki-ng/controller-server/sdn-graph.c:275-328 | Every recorded non-empty path is a run of next-hop edges from a changed node to a node without a rule or to the third unchanged node in a row, and to no such third node before. |
| `RuleGraph.Covered` | it-sdn-contiki-ng/controller-server/sdn-graph.c:282-308 | A walk from above a changed node records a path that holds the node's edge. |
| `PathPlanner.PathPlanner.Bid` | it-sdn-contiki-ng/controller-server/sdn-graph.c:409-423 | One edge's bid keeps the segment table naming, for every edge bid on, the first lowest bidder. |
| `PathPlanner.ScoredDecides` | it-sdn-contiki-ng/controller-server/sdn-graph.c:413-436 | After the first pass a path is a segment's winner exactly if it reaches the edge at the lowest index, and first in the list among equals. |
| `PathPlanner.PathPlanner.KeptLength` | it-sdn-contiki-ng/controller-server/sdn-graph.c:430-457 | A path is kept up to the node of its first lost edge. |
| `PathConflicts.KeepsEdgeIff` | it-sdn-contiki-ng/controller-server/sdn-graph.c:404-457 | For any list of paths: a path keeps an edge exactly if no edge of it up to that one is on another path nearer to its start, or as near on a path earlier in the list. |
| `PathPlanner.PathPlanner.CutLosers` | it-sdn-contiki-ng/controller-server/sdn-graph.c:427-503 | The list afterwards holds the cut paths that have an edge left, or are a drop rule, in order. |
| `PathConflicts.CutPathsAreEdgeDisjoint` | it-sdn-contiki-ng/controller-server/sdn-graph.c:404-457 | For any list of paths: no edge is in two cut paths. |
| `PathConflicts.EveryEdgeHasAWinner` | it-sdn-contiki-ng/controller-server/sdn-graph.c:407-425 | For any list of paths: every edge has a winner. |
| `PathConflicts.RivalReachesFurther` | it-sdn-contiki-ng/controller-server/sdn-graph.c:409-457 | The core of the argument: whoever beats a path at an edge above a changed node also leads to a path that beats it at the changed node's edge, ties included. |
| `PathConflicts.NoChangedEdgeIsCut` | it-sdn-contiki-ng/controller-server/sdn-graph.c:427-457 | Cutting losing paths never drops a changed rule. |
| `PathConflicts.EveryChangeIsPlannedOnce` | it-sdn-contiki-ng/controller-server/sdn-graph.c:404-503 | The edge of every changed node is in exactly one surviving path. |
| `PathConflicts.SurvivorsAreRuns` | it-sdn-contiki-ng/controller-server/sdn-graph.c:459-500 | Survivors are runs of at least one rule without repeated nodes, starting at a changed node. |
| `DropRules.FinishesIff` | it-sdn-contiki-ng/controller-server/sdn-graph.c:317-369 | With drop rules as the only loops, where the planner may start: the walk from a node returns exactly if its chain ends at a node without a rule, or at a drop rule with a changed rule on the last three nodes. |
| `DropRules.RecordIsWalk` | it-sdn-contiki-ng/controller-server/sdn-graph.c:275-328 | With drop rules as the only loops a walk that returns records the same paths with an edge as the walk on the rules that lead on. |
| `DropRules.RulesThatLeadOnArePlannedOnce` | it-sdn-contiki-ng/controller-server/sdn-graph.c:404-503 | With drop rules as the only loops the edge of every changed rule that leads on is in exactly one surviving path. |
| `DropRules.DropRuleIsPlannedIff` | it-sdn-contiki-ng/controller-server/sdn-graph.c:330-369 | For any starts: a changed drop rule survives as a path of its own exactly if some start's walk comes to it with no changed rule on the three nodes in front of it. |
| `DropRules.UnplannedDropIsOnSurvivor` | it-sdn-contiki-ng/controller-server/sdn-graph.c:427-503 | Otherwise, if a walk comes to it at all, it is the last node of a surviving path. |
| `DropRules.DropRuleOnTable` | it-sdn-contiki-ng/controller-server/sdn-graph.c:330-369 | Read off the table, with the starts of the two sweeps: a changed drop rule's node is on a surviving path in any case, and it is planned exactly if no other node's rule leads to it, or the chain of a node no rule leads to comes to it with no changed rule on the three nodes in front of it. |
| `DropRules.DropRuleIsForgotten` | it-sdn-contiki-ng/controller-server/sdn-graph.c:509-531 | The smallest table on which one is not planned: two changed rules in a row, one surviving path, both nodes on it, and only the first with its edge. |
| `PathPlanner.PathPlanner.UpdateChanges` | it-sdn-contiki-ng/controller-server/sdn-graph.c:509-531 | Clears the flag of exactly the rules of the flow whose source is on a surviving path; no other entry changes. |
| `PathPlanner.ClearedIsUnmarked` | it-sdn-contiki-ng/controller-server/sdn-graph.c:509-531 | Where drop rules are the only loops, all the flow's rules are unmarked afterwards, the drop rules that are not planned included. |
| `PathPlanner.PathPlanner.ProcessTableGraph` | it-sdn-contiki-ng/controller-server/sdn-graph.c:538-557 | The whole plan, on any table on which the walks return: the starts are those of the two sweeps, the list holds the survivors of what they record, and exactly the rules of the nodes on it are unmarked. |
| `MultiFlowSetup.BuildSetList` | it-sdn-contiki-ng/controller-server/sdn-process-packets-controller.c:86-93 | The loop fills the set list with the path's next hops, last node first. |
| `SourceRoute.ListedHops` | it-sdn-contiki-ng/controller-server/sdn-send-packet-controller.c:379-405 | Of a route too long for the packet, the listed addresses are those of the hops nearest the controller. |
| `SourceRoute.AddSrcRtdHeader` | it-sdn-contiki-ng/controller-server/sdn-send-packet-controller.c:365-409 | The reversed address list, its length, the destination and the real destination; the packet never exceeds 116 octets. |
| `MultiFlowSetup.SendMultDataFlowSetup` | it-sdn-contiki-ng/controller-server/sdn-send-packet-controller.c:73-109 | The octets built are the encoding of the planned packet, whose length is 12 + 3 * set_len + 2 * path_len. |
| `MultiFlowSetup.BuiltFields` | it-sdn-contiki-ng/controller-server/sdn-send-packet-controller.c:73-109 | The planned packet has the controller as its source, hop limit 60 and the first hop as its destination, and lists as many of the addresses nearest the controller as 116 octets hold. |
| `MultiFlowSetup.LayoutIsEncode` | it-sdn-contiki-ng/sdn-common/sdn-protocol.h:220-228 | The field offsets and the encoding agree. |
| `MultiFlowSetup.EncodedOctets` | it-sdn-contiki-ng/sdn-common/sdn-protocol.h:220-249 | Every field, set command and address stands at its octet of the packed structure and the two lists behind it. |
| `MultiFlowSetup.SdnNode.DataflowInsert` | it-sdn-contiki-ng/sdn-common/data-flow-table.c:47-100 | The flow has the given next hop and action afterwards, but forwarding to oneself becomes receiving; every other flow's entry is as before. |
| `MultiFlowSetup.InstalledEntry` | it-sdn-contiki-ng/sdn-common/data-flow-table.c:72-86 | So drop and receive rules are stored as they are, and forwarding rules too unless they lead to the node itself. |
| `MultiFlowSetup.SdnNode.TreatMultDataFlowSetup` | it-sdn-contiki-ng/sdn-common/sdn-process-packets.c:503-560 | A node's handling in place equals the specified step: it takes the last address, or installs the last set command and passes the rest on, and the length formula holds again. |
| `SeqnoTable.RegisteredIsDuplicate` | it-sdn-contiki-ng/contiki-sdn/sdn-receive.c:152-195 | A packet that a node has registered is a duplicate there from then on, another number of its sender is not. |
| `MultiFlowDelivery.SeenIff` | it-sdn-contiki-ng/contiki-sdn/sdn-receive.c:63-89 | A node knows a packet after its reception exactly if it knew it before or the hop limit was not used up. |
| `MultiFlowDelivery.HopLimitEnds` | it-sdn-contiki-ng/contiki-sdn/sdn-receive.c:73-79 | Whatever rules and tables the nodes hold, a packet is gone after at most one handling more than its hop limit. |
| `MultiFlowDelivery.RelaysVisitHops` | it-sdn-contiki-ng/sdn-common/sdn-process-packets.c:547-558 | On the source-routed part a packet new to its relays visits the hops, if they differ, in order and installs nothing. |
| `MultiFlowDelivery.PathIsInstalled` | it-sdn-contiki-ng/sdn-common/sdn-process-packets.c:507-545 | Behind it, a path of distinct nodes new to the packet is installed edge by edge, and then the packet is gone. |
| `MultiFlowDelivery.InstallAllIs` | it-sdn-contiki-ng/sdn-common/sdn-process-packets.c:511-515 | Installing a path of distinct nodes gives each node its own edge and touches nobody else. |
| `MultiFlowDelivery.PacketOutcome` | it-sdn-contiki-ng/contiki-sdn/sdn-receive.c:59-86 | What one packet does, exactly, for any path, any route and anything the nodes hold or have seen: each stop takes it until one has seen it, and the edges up to there are installed. |
| `MultiFlowDelivery.OnePacketInstallsPath` | it-sdn-contiki-ng/sdn-common/sdn-process-packets.c:503-560 | One packet for a path n0..nk behind an untruncated route equals the k separate installations if and only if the relays and n0..n(k-1) are pairwise distinct and new to it, or the rules it does not reach were in force before. |
| `MultiFlowDelivery.HandlingsNeeded` | it-sdn-contiki-ng/sdn-common/sdn-process-packets.c:503-560 | Then it takes exactly path_len + k handlings: after that many all is done, and before that the packet is on its way. |
| `MultiFlowDelivery.LastRuleIsLost` | it-sdn-contiki-ng/contiki-sdn/sdn-receive.c:63-66 | If a stop has to take the packet twice, or has seen it, the path's last rule is not installed. |
| `MultiFlowDelivery.RelayOnThePathIsSkipped` | it-sdn-contiki-ng/contiki-sdn/sdn-receive.c:63-66 | The path c, b, d behind the route b, c: c gets its rule, b does not. |
| `MultiFlowDelivery.TruncatedPacketMisinstalls` | it-sdn-contiki-ng/controller-server/sdn-send-packet-controller.c:379-384 | With a truncated route the first rule goes to the last listed hop, which is not the path's first node. |
| `PlanExecution.AfterPlanIs` | it-sdn-contiki-ng/controller-server/sdn-process-packets-controller.c:79-103 | The packets of a plan, one after the other, do what separate installations of the parts do that each gets to. |
| `PlanExecution.PlanOutcome` | it-sdn-contiki-ng/controller-server/sdn-process-packets-controller.c:79-103 | Afterwards a node holds the controller's rule if it has an edge in such a part, and otherwise what it held before. |
| `PlanExecution.ChangeInForceIff` | it-sdn-contiki-ng/controller-server/sdn-process-packets-controller.c:79-103 | Planning and execution together: a changed rule is in force afterwards if and only if the packet of the one survivor with its edge gets past its node, or it was in force before. |
| `PlanExecution.PlanInForce` | it-sdn-contiki-ng/controller-server/sdn-process-packets-controller.c:79-103 | If no packet has to be taken twice, every changed rule is in force, and no node holds anything but its old rule or the controller's. |
| `PlanInterleaving.TurnStands` | it-sdn-contiki-ng/contiki-sdn/sdn-receive.c:63-86 | With all packets of a plan on their way, any node's turn keeps: served nodes have the controller's rule and all others their old ones, each packet is where its turns have brought it, and no node still ahead of a packet knows it. |
| `PlanInterleaving.AnyOrderIsInTurn` | it-sdn-contiki-ng/controller-server/sdn-process-packets-controller.c:79-103 | Safety over all schedules: if no packet has to be taken twice, then however the nodes' turns are interleaved, once each packet has had its turns all are gone and every node has the rules it has when they are sent one after the other. |
| `PlanInterleaving.NothingElseOnTheWay` | it-sdn-contiki-ng/controller-server/sdn-process-packets-controller.c:79-103 | And at no time on the way does a node hold anything but its old rule or the controller's. |
| `PlanInterleaving.ChangesInForceInAnyOrder` | it-sdn-contiki-ng/controller-server/sdn-process-packets-controller.c:79-103 | So in the end every changed rule is in force, whatever the order. |
| `PlanInterleaving.TakenIsKnown` | it-sdn-contiki-ng/contiki-sdn/sdn-receive.c:177-195 | A node that has just taken a packet knows it, |
| `PlanInterleaving.KnownIsDropped` | it-sdn-contiki-ng/contiki-sdn/sdn-receive.c:63-66 | and drops it if it comes again, |
| `PlanInterleaving.OvertakenIsTakenAgain` | it-sdn-contiki-ng/contiki-sdn/sdn-receive.c:152-195 | but if another packet of the controller comes there in between, it takes it again, and passes it on or gets its rule from it. |
| `PlanExecution.NewRouteIsOneSurvivor` | it-sdn-contiki-ng/controller-server/sdn-process-packets-controller.c:85-93 | A route whose rules have all changed survives as one path of all its nodes, more than the set list holds from 22 nodes on. |
| `PlanExecution.EveryRouteIsNewOnce` | it-sdn-contiki-ng/controller-server/sdn-graph.c:199-232 | Such a graph exists for every route of 2 to 30 different nodes. |
| `SourceRoutedSetup.Send` | it-sdn-contiki-ng/controller-server/sdn-send-packet-controller.c:43-71 | The single setup packet, built behind its source route. |
| `SourceRoutedSetup.BuiltFields` | it-sdn-contiki-ng/controller-server/sdn-send-packet-controller.c:43-71 | What it is built from: the controller as source, hop limit 60, the first hop as destination, the target as real destination, and as many of the addresses nearest the controller as 116 octets hold. |
| `SourceRoutedSetup.EncodedOctets` | it-sdn-contiki-ng/sdn-common/sdn-protocol.h:208-218 | Every field and address stands at its octet of the packed structure and the list behind it. |
| `SourceRoutedSetup.Treat` | it-sdn-contiki-ng/sdn-common/sdn-process-packets.c:344-376 | A node relays it, installs its rule, or turns it into an address-routed packet with the same rule. |
| `SourceRoutedSetup.ByAddressOctets` | it-sdn-contiki-ng/sdn-common/sdn-process-packets.c:344-376 | The packet sent on by address, octet by octet: the type of an address-routed setup, the rest of the header, the real destination, and the rule. |
| `SourceRoutedSetup.SetupReachesTarget` | it-sdn-contiki-ng/sdn-common/sdn-process-packets.c:344-376 | If no hop has seen it, it visits the route of distinct hops in order; if the list was not truncated the target, and nobody else, has the rule's next hop and action for the flow, forwarding to itself turned into receiving, and otherwise the last listed hop sends the same rule on by address. |
| `Subpackets.SubAt` | it-sdn-contiki-ng/sdn-common/sdn-queue.c:415-421 | Each sub-packet lies where the lengths in front of it say, inside the container. |
| `Aggregation.MergedNewLength` | it-sdn-contiki-ng/sdn-common/sdn-queue.c:408-423 | The recomputed length is that of the container, with an 8-bit cursor that does not wrap. |
| `Aggregation.ShiftRight` | it-sdn-contiki-ng/sdn-common/sdn-queue.c:471-473 | The shifting loop moves header-less content five places without losing an octet. |
| `Aggregation.OpenContainer` | it-sdn-contiki-ng/sdn-common/sdn-queue.c:464-484 | An unmerged packet becomes, in place, the container of its own sub-packet. |
| `Aggregation.PutEach` | it-sdn-contiki-ng/sdn-common/sdn-queue.c:489-523 | The copying loop appends the sub-packets of a container in order. |
| `Aggregation.CombinePackets` | it-sdn-contiki-ng/sdn-common/sdn-queue.c:425-557 | A merge is accepted exactly when there are at most 8 sub-packets and 116 octets in all; it appends the arriving sub-packets to the queued ones in place, leaves octets behind the result alone, and changes nothing when refused. |
| `Aggregation.MergedLenIs` | it-sdn-contiki-ng/sdn-common/sdn-queue.c:455-458 | The result is p1_len + p2_len + 1, - 4 or - 9 octets long, and fits 116 exactly if one input was merged or the sum is below 116: the size check is off by one. |
| `Aggregation.MergedCarries` | it-sdn-contiki-ng/sdn-common/sdn-queue.c:464-543 | A merge result is a well-formed packet again. |
| `SourceTail.MergedSubpacketsLen` | it-sdn-contiki-ng/sdn-common/sdn-addr.c:120-138 | The walk over the lengths gives the sub-packets' size, or an error for more than 8. |
| `SourceTail.SrcRoutingInfo` | it-sdn-contiki-ng/sdn-common/sdn-queue.c:559-611 | Finds real destination, path length and path, merged or not. |
| `SourceTail.UnmergedFields` | it-sdn-contiki-ng/sdn-common/sdn-queue.c:559-611 | In an unmerged packet real destination, path length and path start at octet 10 of an acknowledgement and 13 of a setup, and what is in front is its one sub-packet. |
| `SourceTail.RealDest` | it-sdn-contiki-ng/sdn-common/sdn-addr.c:161-175 | Finds the same real destination. |
| `SourceTail.NextSrcAddr` | it-sdn-contiki-ng/sdn-common/sdn-addr.c:140-159 | Finds the address right behind the same tail. |
| `SourceTail.CombineSrcPackets` | it-sdn-contiki-ng/sdn-common/sdn-queue.c:613-676 | Accepted exactly by the size check and at most 8 sub-packets; then the bodies are merged and all three locators find the queued packet's tail behind them; a refusal for the number of sub-packets leaves the length without the tail. |
| `Deaggregation.ParseOfContainer` | it-sdn-contiki-ng/sdn-common/sdn-process-packets.c:927-943 | Reading a container back gives its sub-packets, whatever follows them. |
| `Deaggregation.TreatMergedPacket` | it-sdn-contiki-ng/sdn-common/sdn-process-packets.c:906-965 | The packets handed on, for any octets: one for each sub-packet that fits behind the header of the type, in order, each with the header as treating the one before has left it. |
| `Deaggregation.OtherPartsKeepHeader` | it-sdn-contiki-ng/sdn-common/sdn-process-packets.c:906-965 | For types that are not source-routed every part has the container's header. |
| `Deaggregation.PartRewrites` | it-sdn-contiki-ng/sdn-common/sdn-process-packets.c:312-375 | What treating a part with the misplaced tail makes of the header: type and destination are rewritten where the octet taken for the path length is 0, the destination where it is 1 to path_len, and nothing otherwise. |
| `Deaggregation.MisplacedHeaderIs` | it-sdn-contiki-ng/sdn-common/sdn-process-packets.c:312-375 | Octet by octet what that header is: which two octets of the packet become the destination, and which type a setup is given that is not at home. |
| `Deaggregation.SourceRoutedPartsAreMisplaced` | it-sdn-contiki-ng/sdn-common/sdn-process-packets.c:921-960 | In the source-routed branch the tail starts one octet early: every part has one octet too many, its real destination is right only if three neighboring octets agree, and the parts behind the first carry the type and destination that treating the first has written. |
| `MergeHistory.BuildCarries` | it-sdn-contiki-ng/sdn-common/sdn-queue.c:425-557 | After any tree of accepted merges the packet carries exactly the original sub-packets. |
| `MergeHistory.HeaderBeforeCount` | it-sdn-contiki-ng/sdn-common/sdn-protocol.h:598-625 | For data packets and the seven types that are compared, eight octets are in front of the count for the receiver, as for the merging side. |
| `MergeHistory.SplitRestoresOriginals` | it-sdn-contiki-ng/sdn-common/sdn-process-packets.c:906-965 | De-aggregation undoes any tree of accepted merges of data packets or of one of the seven types that are compared and not source-routed: type, destination, source, sequence number and payload of every original, in merge order. |
| `Supersede.ScanMerged` | it-sdn-contiki-ng/sdn-common/sdn-queue.c:785-840 | The nested scan records the numbers of the matching old sub-packets, as many as there are places. |
| `Supersede.ScanSingle` | it-sdn-contiki-ng/sdn-common/sdn-queue.c:785-840 | Against an unmerged entry the first match decides: replace if the sources differ, nothing if they are equal (sdnaddr_cmp is 0 for equal addresses). |
| `Supersede.VerdictIs` | it-sdn-contiki-ng/sdn-common/sdn-queue.c:785-840 | What decides there: the first arriving sub-packet that agrees with the entry in the octets compared, by its source; if none does the packets are merged. |
| `Supersede.DeleteSubpacket` | it-sdn-contiki-ng/sdn-common/sdn-queue.c:730-769 | Deletes one sub-packet in place and keeps the others and the tail behind them. |
| `Supersede.ComparePackets` | it-sdn-contiki-ng/sdn-common/sdn-queue.c:771-848 | The whole comparison in place: the action, and for a container the deletion of the recorded numbers, tail preserved. |
| `Supersede.DeletingIsFiltering` | it-sdn-contiki-ng/sdn-common/sdn-queue.c:842-845 | Deleting the recorded numbers from last to first is filtering by the key. |
| `Supersede.UnmergedArrivalFilters` | it-sdn-contiki-ng/sdn-common/sdn-queue.c:785-845 | What an unmerged arrival leaves of a container: exactly the sub-packets it does not match, in order. |
| `Supersede.KeysStayDistinct` | it-sdn-contiki-ng/sdn-common/sdn-queue.c:771-848 | In an entry grown from any run of unmerged arrivals, refused merges included, no two sub-packets have the same key. |
| `Supersede.StaysUntilSuperseded` | it-sdn-contiki-ng/sdn-common/sdn-queue.c:771-848 | A merged sub-packet stays until an arrival with its key comes. |
| `Supersede.MergedArrivalDeletesWrongOne` | it-sdn-contiki-ng/sdn-common/sdn-queue.c:842-845 | A merged arrival whose sub-packets match in another order makes the code delete a sub-packet nothing supersedes. |
| `MergedArrivals.ArrivalFiltersIff` | it-sdn-contiki-ng/sdn-common/sdn-queue.c:785-845 | For any arrival, merged or not, at a container of different sub-packets, if no old sub-packet is recorded twice: exactly those to be superseded go if and only if they stand in the order of the new ones that supersede them. |
| `MergedArrivals.KeyedArrivalFiltersIff` | it-sdn-contiki-ng/sdn-common/sdn-queue.c:785-845 | So it is whenever the new sub-packets have different keys of a fixed size, as entries grown from unmerged arrivals have. |
| `MergedArrivals.SameOrderFilters` | it-sdn-contiki-ng/sdn-common/sdn-queue.c:785-845 | The order is enough in any case, |
| `MergedArrivals.RecordedTwiceMayFilter` | it-sdn-contiki-ng/sdn-common/sdn-queue.c:785-845 | but with an old sub-packet recorded twice it is not needed. |
| `MergedArrivals.TakesNamedIff` | it-sdn-contiki-ng/sdn-common/sdn-queue.c:842-845 | Deleting different recorded numbers from last to first takes away exactly what they name if and only if the numbers ascend. |
| `QueueTreatment.TreatSlot` | it-sdn-contiki-ng/sdn-common/sdn-queue.c:861-959 | For one queued packet of another type: the decision and the merge in place equal the specified outcome, which the rows of Decisions read off the octets. |
| `QueueTreatment.LeftIsSurviving` | it-sdn-contiki-ng/sdn-common/sdn-queue.c:785-845 | The decision against an unmerged arrival is the filtering above. |
| `QueueTreatment.DecideIsArrive` | it-sdn-contiki-ng/sdn-common/sdn-queue.c:861-959 | On octets, the decision for an unmerged arrival is the step that keeps keys distinct and lets sub-packets stay until superseded. |
| `QueueTreatment.ArrivalKeepsKeys` | it-sdn-contiki-ng/sdn-common/sdn-queue.c:961-1045 | So whatever unmerged packet arrives, no two sub-packets in the queued octets have the same key. |
| `SourceTreatment.CompareTails` | it-sdn-contiki-ng/sdn-common/sdn-queue.c:850-859 | Tails are the same exactly if real destination and address list are. |
| `SourceTreatment.TreatSrcSlot` | it-sdn-contiki-ng/sdn-common/sdn-queue.c:861-957 | For source-routed types, octet by octet: only packets with the same tail are compared, deletion and merge keep the tail, and a merge refused for its count loses it. |
| `PacketTreatment.TreatAny` | it-sdn-contiki-ng/sdn-common/sdn-queue.c:861-959 | For one queued packet of any type: the action reported and the octets left are those of the decision, which the rows of Decisions read off the octets of the two packets. |
| `Decisions.OthersAreSkipped` | it-sdn-contiki-ng/sdn-common/sdn-queue.c:861-959 | A queued packet of another type or destination, or of a type that is not treated, is left alone. |
| `Decisions.ReportsReplaceTheirOwn` | it-sdn-contiki-ng/sdn-common/sdn-queue.c:936-939 | A neighbor report replaces one of the same node to the same destination, and is not compared with one of another node. |
| `Decisions.DataIsJoined` | it-sdn-contiki-ng/sdn-common/sdn-queue.c:930-934 | Data packets of one flow are merged if they have at most 116 octets and 8 sub-packets together: the queued one carries its own sub-packets and then the arriving ones, under its own header; otherwise it stays as it is. |
| `Decisions.DataMergesAreAccepted` | it-sdn-contiki-ng/sdn-common/sdn-queue.c:930-934 | However the two came about by merges: the queue merges them exactly if the merge is one that de-aggregation undoes. |
| `Decisions.UnmergedIsCompared` | it-sdn-contiki-ng/sdn-common/sdn-queue.c:895-928 | An unmerged packet of the seven types that are compared: the first arriving sub-packet with the same two octets (the whole payload for acknowledgements by flow id) replaces it if it is from another node, and nothing changes if it is from the same; without one they are merged. |
| `Decisions.ContainerIsFiltered` | it-sdn-contiki-ng/sdn-common/sdn-queue.c:895-928 | A merged one keeps, in order, what an unmerged arrival does not match, and then takes it in if there is room, |
| `Decisions.ContainersAreFiltered` | it-sdn-contiki-ng/sdn-common/sdn-queue.c:895-928 | and of a merged arrival what no sub-packet of another node matches, if its sub-packets are different and those to go stand in the order of the ones that match them. |
| `Decisions.OtherRouteIsSkipped` | it-sdn-contiki-ng/sdn-common/sdn-queue.c:867-881 | Source-routed packets with another real destination or address list are left alone. |
| `Decisions.SrcUnmergedIsCompared` | it-sdn-contiki-ng/sdn-common/sdn-queue.c:941-954 | With the same ones they are compared in two octets in the same way; a merge keeps one tail, and leaves none if there are too many sub-packets for it. |
| `Decisions.SrcContainerIsFiltered` | it-sdn-contiki-ng/sdn-common/sdn-queue.c:941-954 | So is a merged one with an unmerged arrival, |
| `Decisions.SrcContainersAreFiltered` | it-sdn-contiki-ng/sdn-common/sdn-queue.c:941-954 | and with a merged one, on the same condition as above. |
| `Decisions.SetupIsSource` | it-sdn-contiki-ng/sdn-common/sdn-protocol.h:208-218 | The setup that the controller sends is such a packet, its rule the one sub-packet. |
| `Decisions.MergedHasOneHeader` | it-sdn-contiki-ng/sdn-common/sdn-protocol.h:598-625 | Whatever packet a merge was tried on, the receiver takes it to have the eight octets of header in front of its count that the merge put there. |
| `PacketTreatment.DecisionKeepsGoodIff` | it-sdn-contiki-ng/sdn-common/sdn-queue.c:861-1045 | A treated packet keeps its type, and can be treated again exactly unless arrival and entry are source-routed with the same type and tail, fit together with one tail, and have more than 8 sub-packets. |
| `PacketTreatment.QueueStaysGoodIff` | it-sdn-contiki-ng/sdn-common/sdn-queue.c:961-1045 | A queue whose packets can all be treated stays one exactly unless this holds of the first entry that is not skipped. |
| `PacketTreatment.EightOthersLoseTail` | it-sdn-contiki-ng/sdn-common/sdn-queue.c:613-676 | It happens: any flow setup in the queue loses its tail when eight others for the same node arrive in one packet, behind a route of up to nine addresses. |
| `PacketQueue.PacketQueue.Dequeue` | it-sdn-contiki-ng/sdn-common/sdn-queue.c:121-137 | Removes the oldest entry. |
| `PacketQueue.PacketQueue.Scan` | it-sdn-contiki-ng/sdn-common/sdn-queue.c:989-1010 | The scan round the ring finds the first entry that is not skipped. |
| `PacketQueue.EnqueueIs` | it-sdn-contiki-ng/sdn-common/sdn-queue.c:961-1045 | What an enqueue comes to, for any decision: a full queue refuses; otherwise the first entry from the start of the scan on that is not skipped is replaced and its buffer set free, or takes what the merge makes of it and the arriving buffer is set free, or keeps what a refused merge leaves while the packet is appended; with no such entry the packet is appended and nothing else changes. |
| `PacketQueue.PacketQueue.EnqueueForSend` | it-sdn-contiki-ng/sdn-common/sdn-queue.c:158-208 | The ring realises that enqueue, with the scan from its head when idle, and from the entry behind it while a packet is being sent. |
| `PacketQueue.PacketQueue.EnqueueReceived` | it-sdn-contiki-ng/sdn-common/sdn-queue.c:302-327 | The same for received packets, with the scan from the head; those at their destination are only appended. |
| `PacketQueue.EnqueueChanges` | it-sdn-contiki-ng/sdn-common/sdn-queue.c:961-1045 | Whatever the treatment decides: a failed enqueue changes nothing, a successful one appends, or changes one entry and sets one buffer free; entries in front of the start of the scan never change. |
| `PacketQueue.BuffersAreConserved` | it-sdn-contiki-ng/sdn-common/sdn-packetbuf.c:42-62 | After any interleaving of operations on both queues every buffer is in exactly one slot, in a process's hand, or in the pool. |
| `PacketQueue.LeaveInOrder` | it-sdn-contiki-ng/sdn-common/sdn-queue.c:121-137 | Entries leave in the order in which they were appended, whatever was merged or replaced meanwhile. |
| `QueueRuns.ReportIsPlaced` | it-sdn-contiki-ng/sdn-common/sdn-queue.c:936-939 | In a queue with any other packets a neighbor report takes the place of the same node's earlier one, or is appended, and no other entry changes. |
| `QueueRuns.LatestReportsWait` | it-sdn-contiki-ng/sdn-common/sdn-queue.c:961-1045 | Over any run of arrivals of any types and departures: behind the entries that are not treated there is at most one report of each node to a destination, the latest accepted one, and the latest of every node waits unless it has left. |
| `DataRuns.DataJoinsItsFlow` | it-sdn-contiki-ng/sdn-common/sdn-queue.c:930-934 | A data packet that meets the first one of its flow is merged into it if there is room and at most 8 sub-packets, and is appended otherwise; no other entry changes. |
| `DataRuns.DataIsConserved` | it-sdn-contiki-ng/sdn-common/sdn-queue.c:961-1045 | Over any run of arrivals of any types and departures: the data sub-packets of a flow that wait or have left are those of the accepted packets, none lost and none doubled. |
| `SendProcess.SendProcess.SendDownOnce` | it-sdn-contiki-ng/contiki-sdn/sdn-send.c:100-108 | Posts a wake-up exactly when idle with packets waiting. |
| `SendProcess.SendProcess.TakeWakeup` | it-sdn-contiki-ng/contiki-sdn/sdn-send.c:123-195 | Gives the head to the radio, or drops it and goes on with the next. |
| `SendProcess.SendProcess.SendDone` | it-sdn-contiki-ng/contiki-sdn/sdn-send.c:199-305 | A completion for the head removes it and kicks the next; any other changes nothing. |
| `SendProcess.RequestsLeaveHead` | it-sdn-contiki-ng/sdn-common/sdn-queue.c:1017-1022 | Requests while a packet is being sent leave the head, the status and the pending wake-ups alone. |
| `SendProcess.RequestsAreEnqueued` | it-sdn-contiki-ng/contiki-sdn/sdn-send.c:123-305 | Whatever is requested while the head is treated or its completion handled is enqueued behind it, one after the other; then the head goes to the radio, or leaves and the next one has its turn. |
| `SendProcess.StepKeepsSettled` | it-sdn-contiki-ng/contiki-sdn/sdn-send.c:100-305 | Every event keeps the machine settled, and a completion removes exactly the packet that was sent. |
| `SendProcess.NoLostWakeup` | it-sdn-contiki-ng/contiki-sdn/sdn-send.c:100-305 | After any run: idle exactly when the queue is empty; otherwise one pending wake-up or one packet with the radio, never both, and that packet is the head, octet for octet. |
| `SendProcess.Drains` | it-sdn-contiki-ng/contiki-sdn/sdn-send.c:147-193 | Without new requests the queue is emptied, one packet a turn, in order. |
| `RetxWindow.RetxWindow.AwaitAck` | it-sdn-contiki-ng/contiki-sdn/sdn-send.c:457-541 | Keeps a packet in the first free slot, refreshes a waiting neighbor report, or finds it redundant. |
| `RetxWindow.AwaitedIsKept` | it-sdn-contiki-ng/contiki-sdn/sdn-send.c:457-541 | A reliable packet of the node that is not turned away waits in one slot, timer running: the one that holds a request of the same type and subject, or a neighbor report, which it replaces, if there is one, and else a free one; no other slot changes. |
| `RetxWindow.OtherPacketsPass` | it-sdn-contiki-ng/contiki-sdn/sdn-send.c:457-541 | Merged packets, packets of other nodes and of other types leave the window as it is. |
| `RetxWindow.RetxWindow.RcvAck` | it-sdn-contiki-ng/contiki-sdn/sdn-send.c:400-408 | Removes the first slot with type and sequence number, in use or not, and succeeds exactly if there is one. |
| `RetxWindow.RetxWindow.RcvFlowReq` | it-sdn-contiki-ng/contiki-sdn/sdn-send.c:420-431 | Removes the first request for the flow, in use or not, and succeeds exactly if there is one. |
| `RetxWindow.RetxWindow.RemoveElement` | it-sdn-contiki-ng/contiki-sdn/sdn-send.c:388-398 | Frees a slot, stops its timer and lowers the cached count. |
| `RetxWindow.RetxWindow.TimerFired` | it-sdn-contiki-ng/contiki-sdn/sdn-send.c:362-386 | On a timeout the copy is given up unless there was no buffer. |
| `RetxWindow.TimeoutIs` | it-sdn-contiki-ng/contiki-sdn/sdn-send.c:362-386 | Without a buffer nothing changes; otherwise the slot is free, its octets stay with the new sequence number, and no other slot changes. |
| `RetxWindow.CountIsNoGuess` | it-sdn-contiki-ng/contiki-sdn/sdn-send.c:524-527 | The scan from the cached count finds the lowest free slot of all. |
| `RetxWindow.EventKeepsInv` | it-sdn-contiki-ng/contiki-sdn/sdn-send.c:388-541 | Every event keeps: slots below the count in use, timers running exactly for slots in use, and no slot in front of a live one with its redundancy key. |
| `RetxWindow.FullIffAllLive` | it-sdn-contiki-ng/contiki-sdn/sdn-send.c:457-541 | After any run a packet is turned away exactly when it is a reliable one of this node, unmerged, all four slots are in use, and none holds one of its type and, but for neighbor reports, its subject. |
| `RetxWindow.AnswerRemovesLiveRequest` | it-sdn-contiki-ng/contiki-sdn/sdn-send.c:420-431 | After any run the answer to a request for a flow removes the live one, although the lookup ignores liveness; there is no other, and no other slot changes. |
| `RetxWindow.AddressRemovesLiveRequest` | it-sdn-contiki-ng/contiki-sdn/sdn-send.c:445-455 | So does the answer to a request for an address. |
| `RetxWindow.AckRemovesIff` | it-sdn-contiki-ng/contiki-sdn/sdn-send.c:400-408 | An acknowledgement removes the live packet exactly when no slot in front has its type and sequence number. |
| `RetxWindow.AckIsNeverCaptured` | it-sdn-contiki-ng/contiki-sdn/sdn-send.c:400-408 | So it does after any run whose packets differ from the live ones in type or sequence number. |
| `RetxWindow.LeavesOnlyIf` | it-sdn-contiki-ng/contiki-sdn/sdn-send.c:388-541 | The only ways out of the window. |
| `RetxWindow.FullQueueDropsPacket` | it-sdn-contiki-ng/contiki-sdn/sdn-send.c:376-385 | With the send queue full but a buffer left the packet is dropped, where the comment says that the timer is set again. |
| `SeqnoTable.SeqnoTable.Register` | it-sdn-contiki-ng/contiki-sdn/sdn-receive.c:177-195 | The table is shifted in place: the sender to the front, its old entry or the last one gone. |
| `SeqnoTable.SeqnoTable.IsDuplicate` | it-sdn-contiki-ng/contiki-sdn/sdn-receive.c:152-175 | Yes for one's own packets and for the number in the sender's first entry, wherever that stands. |
| `SeqnoTable.TableHoldsRecent` | it-sdn-contiki-ng/contiki-sdn/sdn-receive.c:177-195 | After any history the table is the first 16 of all senders, most recent first. |
| `SeqnoTable.RecentOrder` | it-sdn-contiki-ng/contiki-sdn/sdn-receive.c:177-195 | Entries stand by time of their last registration. |
| `SeqnoTable.RecentNumbers` | it-sdn-contiki-ng/contiki-sdn/sdn-receive.c:193-194 | Each entry is its sender's latest registration. |
| `SeqnoTable.RecentComplete` | it-sdn-contiki-ng/contiki-sdn/sdn-receive.c:177-195 | Every registered sender is in the list. |
| `SeqnoTable.DuplicateIff` | it-sdn-contiki-ng/contiki-sdn/sdn-receive.c:157-174 | The answer of the duplicate test after any history: yes exactly for one's own packets, for the number a sender was last registered with if it is among the 16 most recent, and for the all-zero filler entry while the table is not full. |
| `Discovery.CdNode.Input` | it-sdn-contiki-ng/contiki-sdn/sdn-cd/symmcheck-cd.c:150-188 | A beacon moves the node to the sender if the sender lists it and is nearer by more than one; the wrap-around guard gives the same answer for 16-bit and wider ints. |
| `Discovery.CdNode.ControllerDiscovered` | it-sdn-contiki-ng/contiki-sdn/sdn-core.c:111-131 | The controller flow follows discovery until the controller has set it itself. |
| `Discovery.CdNode.Timer` | it-sdn-contiki-ng/contiki-sdn/sdn-cd/symmcheck-cd.c:112-127 | Sends if the neighbor table changed or there is no route; the interval stays between 10 and 600 seconds. |
| `Discovery.CdNode.TakeLocalEvent` | it-sdn-contiki-ng/contiki-sdn/sdn-cd/symmcheck-cd.c:128-141 | A posted event sends at once, or reloads the interval to less than 20 seconds. |
| `Discovery.StepKeepsInv` | it-sdn-contiki-ng/contiki-sdn/sdn-cd/symmcheck-cd.c:150-207 | Every step keeps: next hops are nearer now, links are heard both ways, beacons never understate. |
| `Discovery.RoutesReachController` | it-sdn-contiki-ng/contiki-sdn/sdn-cd/symmcheck-cd.c:150-188 | In every run, with beacons lost, repeated or overtaken, following next hops visits distinct nodes and reaches a controller within metric hops. |
| `Discovery.NextHopIsSymmetric` | it-sdn-contiki-ng/contiki-sdn/sdn-cd/symmcheck-cd.c:156-177 | In every run next hop and node have heard each other, and the controller flow is the next hop until the controller decides. |
| `Discovery.QuietRoutesAreShortest` | it-sdn-contiki-ng/contiki-sdn/sdn-cd/symmcheck-cd.c:168-177 | When no beacon would change anything any more, the route is no longer than any announced path. |
| `SerialFraming.FrameEncode` | it-sdn-contiki-ng/contiki-sdn/sdn-serial.c:185-204 | The node's encoder stuffs every flag and escape octet. |
| `SerialFraming.NodeDecoder.ByteReceived` | it-sdn-contiki-ng/contiki-sdn/sdn-serial.c:112-174 | The node's decoder, with its two packets taking turns, realises the specified step. |
| `SerialFraming.Serializer.ProcessByte` | it-sdn-contiki-ng/controller-server/controller-pc/serializer.cpp:89-135 | The PC's decoder realises its step, in which a flag after an escape is stored. |
| `SerialFraming.FrameFromAnyState` | it-sdn-contiki-ng/contiki-sdn/sdn-serial.c:119-149 | One encoded message from any state, exactly: what is handed on, and that the decoder is clean afterwards. |
| `SerialFraming.FirstAtNodeSurvivesIff` | it-sdn-contiki-ng/contiki-sdn/sdn-serial.c:119-149 | The first message after garbage comes through at the node exactly if no escape was pending, or nothing had been collected and nothing overflowed. |
| `SerialFraming.FirstAtPcSurvivesIff` | it-sdn-contiki-ng/controller-server/controller-pc/serializer.cpp:92-117 | And at the PC exactly if no escape was pending, or less than a header had been collected and a message of full length repeats that with a flag over and over. |
| `SerialFraming.StreamRead` | it-sdn-contiki-ng/controller-server/controller-pc/serializer.cpp:59-135 | A clean decoder reads any number of encoded messages back as they were; up to five plain octets between frames, such as newlines, do no harm. |
| `SerialFraming.Resynchronises` | it-sdn-contiki-ng/contiki-sdn/sdn-serial.c:119-174 | After arbitrary garbage every message from the second on is handed on, in order and intact. |

## Left out

- Windows, sockets, UART, processes and timers of the operating system, printing and metrics, energy and management code, simulation scripts.
- Dijkstra and the digraph: a route is given as a list from the target back to the source.
- Allocation failure in the planner, and the freeing of its graph.
- Graphs with loops other than drop rules: what the planner lists and unmarks, and when its walks return, is settled for them; that every changed rule is planned is proved for tables whose only loops are drop rules.
- MultiFlowSetup.BuildSetList: paths of one node (a drop rule, set_len 0) and of more than 21 nodes, for which the code has no guard and overruns its list.
- MultiFlowSetup.SdnNode.TreatMultDataFlowSetup: packets with neither hops nor set commands, which a drop rule leads to and whose set_len wraps round.
- PathPlanner.PathPlanner.CutLosers: rebuilds the path list instead of unlinking its cells one by one; the segment field winning_index, which nothing reads, is not kept.
- HashTable.HashTable.FindOrAdd: records are reached through their keys, not through node pointers.
- FlowTable.FlowTable.Add: does not keep the fields flag, online and countdown, which belong to the controller's own retransmission.
- FlowTable.FlowTable.CurrentRoute: the twin for address tables differs only in the table it reads.
- MultiFlowSetup.SdnNode.DataflowInsert: the table has no capacity limit, and ages and use counters are not kept.
- MultiFlowDelivery.PacketOutcome: the hop limit and the duplicate test are in it; lost frames and full queues are not, and other packets of the controller are in PlanInterleaving. Route tables as a side effect (state change to controller-set, pending request removed) are in Discovery and RetxWindow.
- PlanExecution.ChangeInForceIff: each packet has run to its end before the next is sent, there are at most 256 of them, and routes are not truncated; what a packet behind a truncated route does is MultiFlowDelivery.PacketOutcome.
- PlanInterleaving.AnyOrderIsInTurn: for plans of which no packet has to be taken twice; for the others the outcome depends on the order.
- SourceRoutedSetup.Send: for a target that is the controller itself the code calls another function.
- Aggregation.CombinePackets: packets are well formed, as the code assumes; the same for SourceTail.
- Supersede.ComparePackets: payloads have the octets that are compared, as the packet formats demand; for shorter ones memcmp reads on.
- MergedArrivals.ArrivalFiltersIff: with an old sub-packet that two new ones are recorded for, which takes equal keys on the arriving side or a compare size of 0, only one direction is proved (MergedArrivals.SameOrderFilters).
- Deaggregation.TreatMergedPacket: packets with the merged flag of the four types whose treatment rewrites the packet and that are never merged; source-routed ones carry a tail and at most 8 sub-packets.
- SourceTreatment.TreatSrcSlot: packets have at most 8 sub-packets, as merging leaves them; for more the code follows a null pointer. The ring results hold for any decision function, this one included.
- PacketQueue.PacketQueue.ProcessNewPacket: slots hold a buffer's number and its octets instead of pointing to a shared array; TreatSlot is the same step on arrays.
- QueueRuns.LatestReportsWait: the run is one of relayed or sent packets; packets for the node itself are appended untreated (PacketQueue.PacketQueue.EnqueueReceived). Reports are unmerged, as nodes send them.
- DataRuns.DataIsConserved: data packets arrive as merging leaves them; a merge with the one octet too many (Aggregation.MergedLenIs) counts with all its octets.
- SendProcess.SendProcess.TakeWakeup: what treating a packet does is given as the next hop and the packets it requests; rewriting a queued neighbor report in place, lost process events and a battery that is empty are not modelled.
- RetxWindow.RetxWindow.TimerFired: the outcome of taking a buffer and enqueueing the copy is a parameter.
- Discovery.CdNode.ControllerDiscovered: the neighbor report that the core process sends a while after is not modelled.
- Discovery.CdNode.Input: the neighbor tables come from neighbor discovery, of which only who heard whom is kept.
- SerialFraming.NodeDecoder.ByteReceived: the two octets by which the node's limit exceeds its packet belong to the packet here.
- Printing over the serial line, whose header is not stuffed.
- collectsdn.c, neighbor discovery, link quality history, and the removal functions of the flow cache.
