# Verified models of OpenBSD network daemons

This project models the parts of four daemons that carry protocol state or
undo each other, and proves what they promise over all inputs and all runs.

* **EIGRP route decision** (`EigrpMetric`, `Dual*`): DUAL per prefix, with routes
  per neighbour, the five-state machine, outstanding replies on two lists,
  feasible-successor choice, saturating metrics and the mirror of installed
  routes, down to the kernel table they end up in (sections 3.2, 3.3 and 3.5 of
  RFC 7868). `DualNode` holds the meaning of every input as a function; `DualPrefix`
  and `DualEngine` hold the in-place code, proved to compute it; the other modules
  hold the theorems.
* **EIGRP reliable transport** (`Rtp`, `RtpSender`, `RtpReceiver`, `RtpChannel`,
  `RtpStall`, `RtpBlocked`, `RtpDemo`): stop-and-wait queues with shared buffers,
  conditional multicasts, and the two-party protocol over an unreliable channel
  (section 5.2 of RFC 7868).
* **DHCP client engine** (`DhcpLease`, `DhcpTiming`, `DhcpClient`, `DhcpOptions`,
  `DhcpParser`): the lease state machine with its timers and the log of messages
  to the main process, T1 and T2 (section 4.4.5 of RFC 2131), and the option
  parser with classless routes (RFC 3442).
* **Codecs** (`Netmask`, `EigrpTlv`, `EigrpUpdate`, `DvmrpReport`, `DvmrpBuffer`):
  EIGRP route records with MTU packing, and DVMRP route reports.
* **Blowfish CBC in place** (`Cbc`, `KeyState`) over an abstract invertible block
  function, with double-buffered vectors.
* **The kernel route table** (`KernelRoutes`, `KernelTable`).
* **Internet checksums** (`Checksum`).

`Prelude` and `Arithmetic` hold shared vocabulary. Clocks, link reports, lease
files, the order in which trees are walked and the byte order of the machine are
parameters. Messages to other processes and to the kernel are logs, which the
theorems replay.

What the code does differs from what one would expect in these places; each has a
lemma with the exact condition, and beside it one at a concrete input or run:

* a prefix can go on naming a removed neighbour as successor (`DualSuccessor.RemovalDangles`);
* a query that makes a prefix active without coming from its successor gets no
  answer from that computation (`DualReplies.QueryBalanced`);
* a lost link or a stuck-in-active query can delete the prefix that the handler goes
  on to use (`DualDeleted.LinkDownMarksExact`, `DualDeleted.QueryMarksExact`);
* a neighbour that was busy when a conditional multicast went out accepts no copy of
  it and nothing after it, and is deleted for it (`RtpChannel.BusyNeverAccepts`,
  `RtpBlocked.BusyIsDeleted`); one that misses a multicast it was idle for is never
  sent it again, nor anything else (`RtpBlocked.MissedWaits`); and the router's own
  entry on a link keeps every multicast buffer (`RtpStall.OwnEntryPins`);
* numbers that wrap with a gap make the receiver refuse new packets
  (`RtpReceiver.WrapAroundExact`);
* an acknowledgement of another address, or of address zero, leaves an address
  configured (`DhcpLease.NextGood`), because a missing server identifier or address
  is refused only when both are missing; with address zero the daemon can also
  exit on a link change (`DhcpLease.ZeroAckFatal`);
* an unanswered lease of any length is used past its end, for 1 to 61 seconds
  (`DhcpTiming.GivenUp`, `DhcpTiming.Reached`); whether already a renewing timer runs
  past it depends on T1 and T2 (`DhcpTiming.OverrunExact`);
* the next hop of an EIGRP route is swapped once too often, and the default route is
  sent but refused (`EigrpTlv.RouteSurvivesExact`);
* an update with a route larger than the MTU is never finished
  (`EigrpUpdate.SendingEndsExact`, `EigrpUpdate.Stalls`);
* DVMRP masks shorter than eight bits are not carried (`DvmrpReport.RoundTripExact`),
  and reports too long for the MTU are not sent (`DvmrpBuffer.PostedExact`);
* a route change under the wildcard priority, 64, breaks the kernel mirror when its
  next hop is already on the first level (`KernelRoutes.WildcardExact`; for any table
  `KernelRoutes.ChangeMirrorsExact`); `kr_change` takes it from any message, but the
  configured daemon never sends it, because the configuration admits only 1 to 63
  (`DualKernel.FedAlone`);
* two neighbours that announce the same next hop share one kernel route, which is
  deleted under the one when the other is dropped behind it (`DualShared.SharingExact`,
  `DualFib.PassExact`); a refresh in between writes it again;
* a received bandwidth of zero, or above 2560000000, divides by zero
  (`EigrpMetric.DividedExact`).

## Model

| member | source | states |
|---|---|---|
| `EigrpMetric.TripleDivision` | fuzzing/per-program-harness/eigrpd/rde_dual.c:345-361 | decoding and re-encoding a bandwidth loses nothing: dividing a constant by a quotient of itself, three times over, is dividing once |
| `EigrpMetric.HopBandwidth` | fuzzing/per-program-harness/eigrpd/rde_dual.c:345-361 | one hop over an encoded bandwidth yields the encoding of the smaller of the two bandwidths |
| `EigrpMetric.PathMetric` | fuzzing/per-program-harness/eigrpd/rde_dual.c:331-439 | after any number of hops the encoded bandwidth is that of the slowest link, the encoded delay is the capped sum of all delays and never the infinite metric, and the hop count saturates |
| `EigrpMetric.ReportedBelowDistance` | fuzzing/per-program-harness/eigrpd/rde_dual.c:363-439 | with K2 = 0, K3 > 0 and a positive interface delay, a received route of finite distance was advertised from strictly closer |
| `EigrpMetric.DividedExact` | fuzzing/per-program-harness/eigrpd/rde_dual.c:353-378 | the two divisions made with a received bandwidth are defined if and only if it is between 1 and 2560000000; 0 and 2560000001 fail |
| `DualSelection.SelectionIsBest` | fuzzing/per-program-harness/eigrpd/rde_dual.c:699-736 | the successor is the first attached internal route if any, otherwise the first of the nearest feasible routes of the preferred type; nothing is returned only when nothing qualifies; and the best position is unique |
| `DualSelection.ReselectionIsFixpoint` | fuzzing/per-program-harness/eigrpd/rde_dual.c:666-736 | after a choice that does not raise the feasible distance, choosing again gives the same route if and only if it is attached or was reported from strictly closer |
| `DualSelection.ReceivedChoiceIsStable` | fuzzing/per-program-harness/eigrpd/rde_dual.c:363-439 | with K2 = 0, K3 > 0 and a positive interface delay, a received route of finite distance chosen without raising the feasible distance stays the choice |
| `DualSelection.UpdateFibExact` | fuzzing/per-program-harness/eigrpd/rde_dual.c:612-664 | on a passive prefix without attached successor the installed routes become exactly the first maximum-paths ones, in list order, that pass feasibility and the 32-bit variance test |
| `DualSelection.UpdateSyncs` | fuzzing/per-program-harness/eigrpd/rde_dual.c:868-934 | an update leaves the installed routes exact in that sense |
| `DualSelection.QuerySyncs` | fuzzing/per-program-harness/eigrpd/rde_dual.c:936-1041 | so does a query on a known prefix |
| `DualSelection.ReplySyncs` | fuzzing/per-program-harness/eigrpd/rde_dual.c:1130-1171 | so does an awaited reply |
| `DualSelection.LinkDownSyncs` | fuzzing/per-program-harness/eigrpd/rde_dual.c:1173-1228 | so does a lost link |
| `DualInvariant.AbsorbOk` | fuzzing/per-program-harness/eigrpd/rde_dual.c:868-934 | taking over what a neighbour says keeps one route per known neighbour in next-hop order, and its kernel messages account for the change of installed routes |
| `DualInvariant.UpdateFibOk` | fuzzing/per-program-harness/eigrpd/rde_dual.c:612-664 | updating the forwarding table only changes flags; its kernel messages replay to the flags; active prefixes end with no route installed |
| `DualInvariant.FsmOk` | fuzzing/per-program-harness/eigrpd/rde_dual.c:132-170 | a transition of the state machine keeps the prefix consistent and its effects account for every change |
| `DualInvariant.GoActiveOk` | fuzzing/per-program-harness/eigrpd/rde_dual.c:806-835 | going active asks every neighbour that must be asked, once, and records exactly those as owing a reply |
| `DualInvariant.LastReplyOk` | fuzzing/per-program-harness/eigrpd/rde_dual.c:1043-1128 | closing a round leaves a consistent prefix or none, and the effects account for every installed route and outstanding reply, those of a prefix that disappears included |
| `DualInvariant.DecideOk` | fuzzing/per-program-harness/eigrpd/rde_dual.c:868-934 | a passive prefix goes active if and only if no feasible successor is left, and then asks everybody |
| `DualInvariant.CheckUpdateOk` | fuzzing/per-program-harness/eigrpd/rde_dual.c:868-934 | an update keeps the prefix consistent: routes in order, each neighbour owing at most one reply, none while passive, nothing installed while active; its effects account for the change |
| `DualInvariant.CheckQueryOk` | fuzzing/per-program-harness/eigrpd/rde_dual.c:936-1041 | the same for a query |
| `DualInvariant.CheckReplyOk` | fuzzing/per-program-harness/eigrpd/rde_dual.c:1130-1171 | the same for a reply |
| `DualInvariant.LinkDownRouteOk` | fuzzing/per-program-harness/eigrpd/rde_dual.c:1173-1228 | the same for a lost link |
| `DualProgress.LastReplyProgress` | fuzzing/per-program-harness/eigrpd/rde_dual.c:1043-1128 | after the last reply a prefix is passive, or runs one further round over the same neighbours with the same feasible distance, and only out of the states that allow it |
| `DualProgress.CheckUpdateProgress` | fuzzing/per-program-harness/eigrpd/rde_dual.c:868-934 | an update never adds to the replies a running computation still needs, and a computation it starts needs at most twice the number of neighbours asked |
| `DualProgress.CheckQueryProgress` | fuzzing/per-program-harness/eigrpd/rde_dual.c:936-1041 | the same for a query |
| `DualProgress.CheckReplyProgress` | fuzzing/per-program-harness/eigrpd/rde_dual.c:1130-1171 | an awaited reply is one fewer to wait for; any other changes nothing |
| `DualProgress.LinkDownKeepsDistance` | fuzzing/per-program-harness/eigrpd/rde_dual.c:1173-1228 | a lost link does not move the feasible distance of a prefix that stays active |
| `DualTopology.CommitKeeps` | fuzzing/per-program-harness/eigrpd/rde_dual.c:441-484 | recording the effects of a step keeps every outstanding reply on both its lists, and the kernel log in agreement with the installed flags |
| `DualTopology.LinkDownWalkOk` | fuzzing/per-program-harness/eigrpd/rde_dual.c:1230-1245 | losing a link, prefix by prefix in any order, keeps all prefixes consistent and leaves no route of the neighbour |
| `DualTopology.DeleteNbrKeeps` | fuzzing/per-program-harness/eigrpd/rde_dual.c:1304-1319 | removing a neighbour strikes its replies from both sides and keeps the rest consistent |
| `DualTopology.NextKeeps` | fuzzing/per-program-harness/eigrpd/rde_dual.c:868-1319 | every event of the engine keeps all invariants over all prefixes and neighbours |
| `DualTopology.RunKeepsInv` | fuzzing/per-program-harness/eigrpd/rde_dual.c:868-1319 | the invariants hold in every state of every run of updates, queries, replies, lost links, new and removed neighbours |
| `DualTopology.RunSafety` | fuzzing/per-program-harness/eigrpd/rde_dual.c:441-484 | in every run: a passive prefix has no outstanding reply and a successor that is on its list with its present metrics; each neighbour owes at most one reply per prefix, on both lists; the kernel messages replay to the installed routes; an active prefix has none |
| `DualRuns.FeasibleDistanceFixed` | fuzzing/per-program-harness/eigrpd/rde_dual.c:868-1319 | in every run, whatever happens, the feasible distance of a prefix is the same at any two moments between which it stays active |
| `DualRuns.TalkRunWaits` | fuzzing/per-program-harness/eigrpd/rde_dual.c:868-1171 | with a fixed set of neighbours every active prefix is waiting for at least one reply after each event |
| `DualRuns.RepliesAccounted` | fuzzing/per-program-harness/eigrpd/rde_dual.c:1043-1171 | while a prefix stays active, replies accepted plus replies still needed never exceed what was needed at the start |
| `DualRuns.ClosesWithin2n` | fuzzing/per-program-harness/eigrpd/rde_dual.c:84-111 | a diffusing computation over n queried neighbours accepts fewer than 2n replies while it runs |
| `DualRuns.InstallsFirstPaths` | fuzzing/per-program-harness/eigrpd/rde_dual.c:612-664 | in every run, from the first event that refreshes a prefix and for as long as the prefix exists, whenever it is passive without attached successor its installed routes are exactly the first maximum-paths eligible ones; lost links and removed neighbours included |
| `DualRuns.WalkVisitsOnce` | fuzzing/per-program-harness/eigrpd/rde_dual.c:1230-1245 | each prefix is touched exactly once by the walk over the table, from the state it had before |
| `DualSuccessor.TalkKeepsLive` | fuzzing/per-program-harness/eigrpd/rde_dual.c:868-1171 | updates, queries and replies never record a successor that does not exist |
| `DualSuccessor.RemovalDangles` | fuzzing/per-program-harness/eigrpd/rde_dual.c:1304-1319 | removing a neighbour leaves a prefix naming it as successor if and only if the prefix named it and had no route from it |
| `DualSuccessor.DanglingIsReachable` | fuzzing/per-program-harness/eigrpd/rde_dual.c:936-1041 | a concrete run of three events that gets there |
| `DualDeleted.LinkDownDeletesExact` | fuzzing/per-program-harness/eigrpd/rde_dual.c:1173-1228 | losing the link to a neighbour deletes the prefix on the way if and only if no route is left that could be chosen and that neighbour alone is asked, or alone owes a reply to a computation it is not the successor of |
| `DualDeleted.WalkDeletesExact` | fuzzing/per-program-harness/eigrpd/rde_dual.c:1230-1245 | the walk over the prefixes deletes one while it is at it if and only if the prefix had a route from the neighbour and is in that case |
| `DualDeleted.LinkDownMarksExact` | fuzzing/per-program-harness/eigrpd/rde_dual.c:1230-1245 | the walk goes on with a prefix it has deleted in that case and in no other |
| `DualDeleted.LinkDownDeletesReachable` | fuzzing/per-program-harness/eigrpd/rde_dual.c:1230-1245 | a concrete run of two events that gets there |
| `DualDeleted.QueryDeletesExact` | fuzzing/per-program-harness/eigrpd/rde_dual.c:1033-1040 | a stuck-in-active query that is not answered at once deletes the prefix its late reply is taken from if and only if no route is left that could be chosen and nobody is to be asked, or nobody owes a reply to the computation of the asking successor |
| `DualDeleted.QueryMarksExact` | fuzzing/per-program-harness/eigrpd/rde_dual.c:1033-1040 | a query goes on with a prefix it has deleted if and only if it is a stuck-in-active one in that case |
| `DualDeleted.QueryDeletesReachable` | fuzzing/per-program-harness/eigrpd/rde_dual.c:1033-1040 | a concrete run of two events that gets there |
| `DualReplies.UpdateBalanced` | fuzzing/per-program-harness/eigrpd/rde_dual.c:868-934 | an update answers exactly those who were waiting for an answer and no longer are |
| `DualReplies.ReplyBalanced` | fuzzing/per-program-harness/eigrpd/rde_dual.c:1130-1171 | so does a reply |
| `DualReplies.QueryBalanced` | fuzzing/per-program-harness/eigrpd/rde_dual.c:936-1041 | a query is answered at once or left pending with the successor if and only if it does not make a passive prefix active while coming from someone else than its successor |
| `DualReplies.RunBalanced` | fuzzing/per-program-harness/eigrpd/rde_dual.c:868-1171 | the same step by step over every run of updates, queries and replies |
| `DualReplies.LostQueryExample` | fuzzing/per-program-harness/eigrpd/rde_dual.c:936-1041 | the lost case for every environment: an infeasible internal route in a query rules out the external successor of a consistent prefix |
| `DualReplies.LostQueryReachable` | fuzzing/per-program-harness/eigrpd/rde_dual.c:945-966 | a concrete run: the first query on an unknown prefix brings the external route, the second is lost |
| `DualFib.NoStaleKey` | fuzzing/per-program-harness/eigrpd/rde.c:489-577 | whatever messages are sent, the kernel keeps no key that no installed route has |
| `DualFib.AlwaysMirroredExact` | fuzzing/per-program-harness/eigrpd/rde.c:489-577 | the keys are those of the installed routes after every message if and only if no message deletes a key that another installed route still has |
| `DualFib.LastWord` | fuzzing/per-program-harness/eigrpd/rde.c:489-577 | a key is held if and only if its last message was a change, or there was none and it was held before |
| `DualFib.PassExact` | fuzzing/per-program-harness/eigrpd/rde_dual.c:612-664 | refreshing the table of a passive prefix leaves exactly the keys of its installed routes, whatever was lost before, if and only if it drops no route behind the last one that keeps its key |
| `DualKernel.TableFollows` | fuzzing/per-program-harness/eigrpd/kroute.c:226-341 | in every run with real priorities the table has written exactly what the changes and deletions leave, whatever it learns and however it is coupled in between |
| `DualKernel.KernelExact` | fuzzing/per-program-harness/eigrpd/rde.c:489-577 | in every run of the engine and of the table that serves it each written key belongs to an installed route; the keys of a prefix are those of its installed routes if and only if its messages leave them; while coupled the kernel has the same keys |
| `DualKernel.FedAlone` | fuzzing/per-program-harness/eigrpd/parse.y:250-270 | configured priorities are never the wildcard, so a coupled table can serve the engine alone |
| `DualPaths.ApartAgrees` | fuzzing/per-program-harness/eigrpd/rde_dual.c:256-288 | in every run in which no two announced paths of a prefix share next hop and priority the kernel has exactly the installed routes of the prefix |
| `DualPaths.AlwaysChanged` | fuzzing/per-program-harness/eigrpd/rde_dual.c:398-439 | the mark for changed metrics is on every route of every run |
| `DualShared.SharingExact` | fuzzing/per-program-harness/eigrpd/rde_dual.c:868-934 | in every run, after an update on a passive prefix that keeps a successor which is not attached, the kernel agrees with the prefix if and only if the update drops no route behind the last one that keeps its key |
| `DualShared.SharingReachable` | fuzzing/per-program-harness/eigrpd/rde_dual.c:256-288 | a concrete run of three updates in which two neighbours announce one third party and the kernel loses the route that the first still has installed |
| `DualPrefix.ScanTable` | fuzzing/per-program-harness/eigrpd/rde_dual.c:132-170 | the scan of the transition table finds the entry for a state and event, or nothing when there is none |
| `DualPrefix.RtNode.FindRoute` | fuzzing/per-program-harness/eigrpd/rde_dual.c:244-254 | finds the position of a neighbour's route, or the end of the list |
| `DualPrefix.RtNode.NewRoute` | fuzzing/per-program-harness/eigrpd/rde_dual.c:256-288 | inserts a route in place before the first larger next hop |
| `DualPrefix.RtNode.DeleteRoute` | fuzzing/per-program-harness/eigrpd/rde_dual.c:290-303 | unlinks a route and tells the kernel exactly if it was installed |
| `DualPrefix.RtNode.Absorb` | fuzzing/per-program-harness/eigrpd/rde_dual.c:868-934 | creates, refreshes or deletes the neighbour's route as specified |
| `DualPrefix.RtNode.FindAttached` | fuzzing/per-program-harness/eigrpd/rde_dual.c:699-736 | the scan returns the first attached internal route |
| `DualPrefix.RtNode.GetSuccessor` | fuzzing/per-program-harness/eigrpd/rde_dual.c:699-736 | the two scanning passes compute the selection rule |
| `DualPrefix.RtNode.SetSuccessor` | fuzzing/per-program-harness/eigrpd/rde_dual.c:666-697 | copies the route into the successor fields, or resets them |
| `DualPrefix.RtNode.UpdateFib` | fuzzing/per-program-harness/eigrpd/rde_dual.c:612-664 | the loop over the routes sets the flags and sends the messages of the specified table update |
| `DualPrefix.RtNode.Fsm` | fuzzing/per-program-harness/eigrpd/rde_dual.c:132-170 | moves the state in place and refreshes the table when the prefix becomes passive |
| `DualPrefix.RtNode.QueryAll` | fuzzing/per-program-harness/eigrpd/rde_dual.c:806-835 | the nested loops query every interface and record every neighbour that must reply, in the specified order |
| `DualPrefix.RtNode.UpdateAll` | fuzzing/per-program-harness/eigrpd/rde_dual.c:772-785 | the loop sends an update on every interface not blocked by split horizon |
| `DualPrefix.RtNode.LastReply` | fuzzing/per-program-harness/eigrpd/rde_dual.c:1043-1128 | one closing step, which settles the prefix, starts one further round or deletes the prefix, as specified |
| `DualPrefix.RtNode.CheckUpdate` | fuzzing/per-program-harness/eigrpd/rde_dual.c:868-934 | the update handler changes the prefix exactly as specified |
| `DualPrefix.RtNode.ServeQuery` | fuzzing/per-program-harness/eigrpd/rde_dual.c:936-1041 | the state cases of the query handler, as specified |
| `DualPrefix.RtNode.CheckQuery` | fuzzing/per-program-harness/eigrpd/rde_dual.c:936-1041 | the query handler changes the prefix exactly as specified |
| `DualPrefix.RtNode.RemoveReply` | fuzzing/per-program-harness/eigrpd/rde_dual.c:476-484 | takes a neighbour off the list of outstanding replies |
| `DualPrefix.RtNode.CheckReply` | fuzzing/per-program-harness/eigrpd/rde_dual.c:1130-1171 | the reply handler changes the prefix exactly as specified |
| `DualPrefix.RtNode.LinkDown` | fuzzing/per-program-harness/eigrpd/rde_dual.c:1173-1228 | the link-down handler changes the prefix exactly as specified |
| `DualEngine.Engine.constructor` | fuzzing/per-program-harness/eigrpd/rde_dual.c:189-227 | an empty table in which no two prefixes share a record |
| `DualEngine.Engine.Conclude` | fuzzing/per-program-harness/eigrpd/rde_dual.c:201-242 | stores or deletes the prefix record after a step and publishes the step's effects |
| `DualEngine.Engine.RecvUpdate` | fuzzing/per-program-harness/eigrpd/rde_dual.c:868-934 | the engine takes the specified step for an update, creating the prefix if needed |
| `DualEngine.Engine.RecvQuery` | fuzzing/per-program-harness/eigrpd/rde_dual.c:936-1041 | the same for a query, known prefix or not |
| `DualEngine.Engine.RecvReply` | fuzzing/per-program-harness/eigrpd/rde_dual.c:1130-1171 | the same for a reply |
| `DualEngine.Engine.LinkDownNbr` | fuzzing/per-program-harness/eigrpd/rde_dual.c:1230-1245 | the same for a lost link, over the whole table |
| `DualEngine.Engine.NbrDown` | fuzzing/per-program-harness/eigrpd/rde_dual.c:1304-1319 | the same for the removal of a neighbour |
| `DualEngine.Engine.NbrUp` | fuzzing/per-program-harness/eigrpd/rde_dual.c:1280-1302 | the same for a new neighbour |
| `Rtp.NextKeeps` | fuzzing/per-program-harness/eigrpd/rtp.c:52-216 | every send, acknowledgement, timeout and neighbour change keeps the queue and reference-count invariants |
| `Rtp.RunKeepsInv` | fuzzing/per-program-harness/eigrpd/rtp.c:52-267 | in every run only the head of a queue has ever been sent or has a timer, it was sent at most once per attempt and at most sixteen times, every reference count equals the number of queued holders, and every other buffer was freed exactly once |
| `Rtp.RunSafety` | fuzzing/per-program-harness/eigrpd/rtp.c:52-267 | for any queued packet of any reachable state: sent at most sixteen times, timer only at the head, buffer alive with an exact count |
| `Rtp.SendMcastKeeps` | fuzzing/per-program-harness/eigrpd/rtp.c:157-216 | a multicast adds one holder per neighbour of the link to one shared buffer and leaves the queues in order |
| `Rtp.ProcessAckKeeps` | fuzzing/per-program-harness/eigrpd/rtp.c:94-121 | an acknowledgement releases the head and sends the next packet without breaking the invariants |
| `Rtp.TimeoutKeeps` | fuzzing/per-program-harness/eigrpd/rtp.c:251-267 | only a head can time out; it is resent or the neighbour is deleted with its whole queue |
| `Rtp.NbrDelKeeps` | fuzzing/per-program-harness/eigrpd/neighbor.c:121-145 | deleting a neighbour empties its queue, releases every buffer once and touches no other queue |
| `RtpChannel.RunSound` | fuzzing/per-program-harness/eigrpd/rtp.c:94-216 | over a channel that loses, duplicates, delays and reorders unicasts, multicasts and hellos, the sender's queue, the wire, the acknowledgements and the receiver with its conditional mode stay consistent in every run without wrap-around |
| `RtpChannel.InOrderExactlyOnce` | fuzzing/per-program-harness/eigrpd/packet.c:299-319 | at all times what a neighbour accepted, unicast or multicast, is a prefix of what was queued for it, in order, each once; and a packet leaves the queue only after it was accepted |
| `RtpChannel.TakenExact` | fuzzing/per-program-harness/eigrpd/packet.c:299-319 | of all copies that can ever arrive, a neighbour takes exactly those of the next message it has not accepted, and a flagged one only in conditional mode with that number announced |
| `RtpChannel.DeliverKeeps` | fuzzing/per-program-harness/eigrpd/packet.c:253-322 | any delivery of anything ever sent keeps both sides consistent |
| `RtpChannel.RoundTripAdvances` | fuzzing/per-program-harness/eigrpd/rtp.c:94-121 | from every consistent state whose head is being retransmitted without the flag, delivering it and an acknowledgement moves on by exactly one packet |
| `RtpChannel.BusyNeverAccepts` | fuzzing/per-program-harness/eigrpd/rtp.c:182-216 | a conditional multicast sent while a neighbour is busy leaves its flag in the shared buffer, so over any continuation of the run that neighbour accepts neither it nor anything queued behind it |
| `RtpBlocked.NeverPast` | fuzzing/per-program-harness/eigrpd/rtp.c:94-121 | what precedes that multicast may still be acknowledged, but it never leaves the queue; when it becomes the head it is timed |
| `RtpBlocked.BusyIsDeleted` | fuzzing/per-program-harness/eigrpd/rtp.c:251-267 | from then on every timeout sends it again in vain: it is tried at most sixteen times, and after sixteen timeouts the neighbour is gone |
| `RtpBlocked.MissedWaits` | fuzzing/per-program-harness/eigrpd/rtp.c:197-216 | a neighbour that was idle at a multicast and never receives it accepts nothing any more, over any continuation: the packet stays at the head without a timer and nothing is unicast to it |
| `RtpDemo.BusyReachable` | fuzzing/per-program-harness/eigrpd/rtp.c:157-216 | a concrete run: a unicast, a multicast behind it, and the refused copy of the multicast |
| `RtpDemo.MissedReachable` | fuzzing/per-program-harness/eigrpd/rtp.c:197-216 | a concrete run to a packet that waits without a timer |
| `RtpDemo.OwnEntryReachable` | fuzzing/per-program-harness/eigrpd/neighbor.c:57-95 | a concrete run: acknowledged by everybody else, the multicast still has its buffer |
| `RtpStall.HeadWaits` | fuzzing/per-program-harness/eigrpd/rtp.c:210-214 | a packet that a multicast put at the head of a queue has no timer: until it is acknowledged or the neighbour goes, nothing is unicast to that neighbour and the buffers of its queue stay allocated |
| `RtpStall.OwnEntryPins` | fuzzing/per-program-harness/eigrpd/neighbor.c:57-95 | with the router's own entry on a link, no buffer of a multicast sent there is freed while that entry exists |
| `RtpReceiver.WrapAroundExact` | fuzzing/per-program-harness/eigrpd/rtp.c:133-142 | a later packet is taken for a duplicate if and only if the numbers wrapped in between and it does not directly follow the largest number |
| `RtpReceiver.WrapAroundRefuses` | fuzzing/per-program-harness/eigrpd/packet.c:310-318 | two packets apart across the wrap, the second is refused |
| `RtpReceiver.ConditionalExact` | fuzzing/per-program-harness/eigrpd/rtp.c:157-216 | a neighbour that hears the hello takes the conditional multicast if and only if the sender has nothing else queued for it and the number is new |
| `RtpReceiver.Neighbour.Take` | fuzzing/per-program-harness/eigrpd/packet.c:253-322 | the receive handler updates mode, announced number and receive number as specified, and reports acceptance and acknowledgements |
| `RtpSender.Sender.constructor` | fuzzing/per-program-harness/eigrpd/rtp.c:133-142 | a transport with a non-zero first number and nothing queued |
| `RtpSender.Sender.BufRelease` | fuzzing/per-program-harness/eigrpd/rtp.c:59-66 | drops one reference and frees the buffer exactly when it was the last |
| `RtpSender.Sender.PacketDel` | fuzzing/per-program-harness/eigrpd/rtp.c:85-92 | unlinks the head of a queue and releases its buffer |
| `RtpSender.Sender.AdvanceSeq` | fuzzing/per-program-harness/eigrpd/rtp.c:133-142 | the next number, never zero |
| `RtpSender.Sender.QueueUcast` | fuzzing/per-program-harness/eigrpd/rtp.c:123-155 | queues a packet, sending it at once exactly when the queue was empty |
| `RtpSender.Sender.CountLink` | fuzzing/per-program-harness/eigrpd/rtp.c:169-177 | the loop counts the neighbours and the busy ones |
| `RtpSender.Sender.QueueMcast` | fuzzing/per-program-harness/eigrpd/rtp.c:157-216 | sends the hello and the multicast when called for and queues one packet per neighbour on one shared buffer, which keeps the conditional flag |
| `RtpSender.Sender.HandleAck` | fuzzing/per-program-harness/eigrpd/rtp.c:94-114 | takes the specified acknowledgement step |
| `RtpSender.Sender.RetransTimer` | fuzzing/per-program-harness/eigrpd/rtp.c:251-267 | takes the specified timeout step |
| `RtpSender.Sender.AddNbr` | fuzzing/per-program-harness/eigrpd/neighbor.c:57-95 | a new neighbour has an empty queue |
| `RtpSender.Sender.DeleteNbr` | fuzzing/per-program-harness/eigrpd/neighbor.c:121-145 | the loop drains the queue as specified |
| `DhcpLease.TimesSanitised` | fuzzing/per-program-harness/dhcpleased/engine.c:1307-1331 | whatever the server supplied, T1 < T2 <= lease, and T2 < lease from eight seconds on; valid times are kept, out-of-order ones replaced |
| `DhcpLease.NextSteady` | fuzzing/per-program-harness/dhcpleased/engine.c:1415-1599 | every step keeps the timer armed outside Down, the requested address zero in Init and Ipv6Only, the Init timeout a power of two up to 64, and the times ordered; which single step is fatal is known exactly |
| `DhcpLease.RunSteady` | fuzzing/per-program-harness/dhcpleased/engine.c:655-717 | the same in every state of every run |
| `DhcpLease.NoUnderflow` | fuzzing/per-program-harness/dhcpleased/engine.c:1485-1511 | in no reachable state do the unsigned subtractions of the renewing and rebinding timers wrap |
| `DhcpLease.AckGood` | fuzzing/per-program-harness/dhcpleased/engine.c:1280-1384 | an accepted acknowledgement keeps the address discipline if and only if it re-acknowledges what is configured, with a real address unless the client gives up IPv4 |
| `DhcpLease.NextGood` | fuzzing/per-program-harness/dhcpleased/engine.c:1255-1403 | one step keeps the address discipline if and only if it is not such a harmful acknowledgement |
| `DhcpLease.RunSafe` | fuzzing/per-program-harness/dhcpleased/engine.c:1710-1778 | without harmful acknowledgements, after any events the configured addresses are at most the requested one, none in Init or Ipv6Only, and no event is fatal |
| `DhcpLease.HarmfulStrands` | fuzzing/per-program-harness/dhcpleased/engine.c:1749-1778 | every harmful acknowledgement leaves an address behind, at once or after the next timeout and refusal |
| `DhcpLease.HarmfulReachable` | fuzzing/per-program-harness/dhcpleased/engine.c:1280-1384 | a concrete run: the renewal of address 1 is answered with address 2, and address 1 stays configured |
| `DhcpLease.NeverFatal` | fuzzing/per-program-harness/dhcpleased/engine.c:1463-1466 | with non-zero addresses in all accepted acknowledgements no run reaches a state with a fatal event |
| `DhcpLease.ZeroAckFatal` | fuzzing/per-program-harness/dhcpleased/engine.c:1291-1296 | an accepted acknowledgement opens the fatal transition if and only if its address is zero and the client stays on IPv4 |
| `DhcpLease.ZeroAckReachable` | fuzzing/per-program-harness/dhcpleased/engine.c:1291-1296 | a concrete run to a state with the fatal event |
| `DhcpLease.RemovalClears` | fuzzing/per-program-harness/dhcpleased/engine.c:730-745 | removing the interface deconfigures what was configured |
| `DhcpLease.RenewalNamesLease` | fuzzing/per-program-harness/dhcpleased/engine.c:1629-1689 | a renewal names the configured address and nothing else, unicast to the server while renewing and broadcast while rebinding |
| `DhcpTiming.InUse` | fuzzing/per-program-harness/dhcpleased/engine.c:1485-1511 | unanswered, the timer of a lease in use runs out at most a minute after the lease ended |
| `DhcpTiming.LeavesExactly` | fuzzing/per-program-harness/dhcpleased/engine.c:1585-1594 | a timeout of an unanswered lease gives the address up if and only if it comes in Rebinding after the end of the lease |
| `DhcpTiming.GivenUp` | fuzzing/per-program-harness/dhcpleased/engine.c:1585-1594 | so the address is never given up by the end of the lease; the timeout that does it comes at most 61 seconds later and leaves nothing configured |
| `DhcpTiming.Reached` | fuzzing/per-program-harness/dhcpleased/engine.c:1585-1594 | once the clock has passed that point, such a timeout has happened, and the lease was in use until then |
| `DhcpTiming.OverrunExact` | fuzzing/per-program-harness/dhcpleased/engine.c:1492-1503 | some renewing timer of an unanswered lease is armed past its end if and only if the last renewal falls there, which is computed from T1 and T2 alone |
| `DhcpTiming.OverrunBounds` | fuzzing/per-program-harness/dhcpleased/engine.c:1492-1503 | none is when T2 lies a minute before the end; the first one is when the lease ends within a minute of T1 |
| `DhcpTiming.OverrunExample` | fuzzing/per-program-harness/dhcpleased/engine.c:1492-1503 | a concrete run: lease 1000, T1 500, T2 999, and the fifth renewing timer runs to second 1055 |
| `DhcpTiming.BoundIsMet` | fuzzing/per-program-harness/dhcpleased/engine.c:1585-1594 | a concrete run in which the address of a one-second lease is given up at second 62 |
| `DhcpClient.Client.constructor` | fuzzing/per-program-harness/dhcpleased/engine.c:663-681 | a newly seen interface is down and knows nothing |
| `DhcpClient.Client.Deconfigure` | fuzzing/per-program-harness/dhcpleased/engine.c:1748-1778 | withdraws and forgets the requested address, if there is one |
| `DhcpClient.Client.DhcpRequest` | fuzzing/per-program-harness/dhcpleased/engine.c:1629-1689 | sends the request table 4 of section 4.3.6 of RFC 2131 asks for in the present state |
| `DhcpClient.Client.Move` | fuzzing/per-program-harness/dhcpleased/engine.c:1415-1542 | the state transition with its timer, as specified, or the fatal exit |
| `DhcpClient.Client.OnTimer` | fuzzing/per-program-harness/dhcpleased/engine.c:1544-1599 | the timeout handler takes the specified step |
| `DhcpClient.Client.Update` | fuzzing/per-program-harness/dhcpleased/engine.c:655-717 | a report takes the specified step exactly when something changed |
| `DhcpClient.Client.OnReboot` | fuzzing/per-program-harness/dhcpleased/engine.c:336-359 | a reboot request takes the specified step |
| `DhcpClient.Client.Sanitise` | fuzzing/per-program-harness/dhcpleased/engine.c:1307-1331 | computes the ordered times |
| `DhcpClient.Client.HandleOffer` | fuzzing/per-program-harness/dhcpleased/engine.c:1256-1279 | takes the specified step for an offer |
| `DhcpClient.Client.HandleAck` | fuzzing/per-program-harness/dhcpleased/engine.c:1280-1384 | takes the specified step for an acknowledgement |
| `DhcpClient.Client.OnReply` | fuzzing/per-program-harness/dhcpleased/engine.c:1255-1403 | takes the specified step for any reply |
| `DhcpOptions.RoutesExact` | fuzzing/per-program-harness/dhcpleased/engine.c:927-1240 | a well-formed option area is accepted; if it has a classless route option the routes are the decoded classless options in order, cut at 256, wherever a routers option stands; otherwise the routers, cut likewise |
| `DhcpOptions.AcceptedExact` | fuzzing/per-program-harness/dhcpleased/engine.c:927-1240 | a packet is accepted if and only if its options can be told apart, each has a length its kind allows, and each classless one is complete as far as the table has room; one bad option drops the packet wherever it stands |
| `DhcpOptions.FillClasslessMeans` | fuzzing/per-program-harness/dhcpleased/engine.c:1152-1212 | filling the table yields the padded destinations, masks and gateways of the option, up to the table size, although only significant bytes are copied |
| `DhcpOptions.FillRoutersMeans` | fuzzing/per-program-harness/dhcpleased/engine.c:1001-1035 | routers become routes without destination, up to the table size |
| `DhcpOptions.ParsedIsEnabled` | fuzzing/per-program-harness/dhcpleased/engine.c:1213-1232 | a parsed reply satisfies what the lease state machine expects of IPv6-only times |
| `DhcpParser.Parser.ParseAll` | fuzzing/per-program-harness/dhcpleased/engine.c:927-1240 | the option loop ends, position and remainder always add up to the payload, nothing outside is read, and the result is the meaning of the split options |
| `DhcpParser.Parser.Take` | fuzzing/per-program-harness/dhcpleased/engine.c:944-1238 | one option has its specified effect or drops the packet |
| `DhcpParser.Parser.StoreClassless` | fuzzing/per-program-harness/dhcpleased/engine.c:1164-1204 | the inner loop fills the table as specified or reports a malformed entry |
| `DhcpParser.Parser.StoreRouters` | fuzzing/per-program-harness/dhcpleased/engine.c:1011-1029 | the inner loop stores routers while there is room |
| `DhcpParser.Parser.StoreServers` | fuzzing/per-program-harness/dhcpleased/engine.c:1036-1056 | the first eight name servers overlay the earlier ones |
| `DvmrpReport.RoundTrip` | fuzzing/per-program-harness/dvmrpd/report.c:89-146 | reading back every packet returns the routes in order, poisoned metrics included, whatever bytes follow each packet in memory; no packet exceeds the limit by more than one entry |
| `DvmrpReport.RoundTripExact` | fuzzing/per-program-harness/dvmrpd/report.c:218-289 | a list with contiguous masks, masked networks and fitting metrics comes back as sent if and only if no mask is shorter than eight bits |
| `DvmrpReport.DefaultRouteLost` | fuzzing/per-program-harness/dvmrpd/report.c:96-112 | a default route is not heard as it was sent |
| `DvmrpReport.NetSurvives` | fuzzing/per-program-harness/dvmrpd/report.c:113-127 | the significant bytes of a network number, with anything behind them, mask back to that number |
| `DvmrpBuffer.PostedExact` | fuzzing/per-program-harness/dvmrpd/report.c:39-71 | every report leaves as it should if and only if each packet fits behind its header into the buffer that the MTU leaves |
| `DvmrpBuffer.LargeEnough` | fuzzing/per-program-harness/dvmrpd/report.c:239-246 | an MTU of 1035 is enough for every list |
| `DvmrpBuffer.LongListLost` | fuzzing/per-program-harness/dvmrpd/report.c:239-288 | a hundred and forty routes at an MTU of 576 do not leave as they should |
| `DvmrpBuffer.Send` | fuzzing/per-program-harness/dvmrpd/report.c:239-288 | the nested loops cut the list into packets and post what the buffers hold, for every buffer size |
| `DvmrpBuffer.Post` | fuzzing/per-program-harness/dvmrpd/report.c:39-71 | header and packet go into a second buffer, each whole or not at all |
| `DvmrpBuffer.Buffer.Fill` | fuzzing/per-program-harness/dvmrpd/report.c:244-285 | the inner loop pops routes into the buffer until it holds a thousand bytes or the list is empty |
| `DvmrpBuffer.Buffer.AddEntry` | fuzzing/per-program-harness/dvmrpd/report.c:246-280 | adds mask, network and metric of one route, flagged at the end of a run, each whole or not at all |
| `DvmrpReport.Receive` | fuzzing/per-program-harness/dvmrpd/report.c:89-146 | the nested loops read what is specified, with the length kept in 16 bits, or leave the memory |
| `DvmrpReport.ReceiveRun` | fuzzing/per-program-harness/dvmrpd/report.c:113-145 | reads the routes under one mask |
| `Netmask.PrefixLenOfMask` | fuzzing/per-program-harness/dvmrpd/kroute.c:208-215 | the prefix length read off a contiguous mask is its length |
| `Netmask.MaskWord` | fuzzing/per-program-harness/dvmrpd/kroute.c:217-224 | the mask of a prefix length is all ones down to the end of the prefix |
| `Netmask.MaskKeeps` | fuzzing/per-program-harness/eigrpd/util.c:115-141 | masking leaves a masked network number alone |
| `EigrpTlv.EncodeRoute` | fuzzing/per-program-harness/eigrpd/tlv.c:132-260 | the bytes written for a route are as many as announced beforehand |
| `EigrpTlv.RouteSurvives` | fuzzing/per-program-harness/eigrpd/tlv.c:159-260 | reading a written route gives it back up to the byte order of its next hop, unless its network may not be announced |
| `EigrpTlv.RouteSurvivesExact` | fuzzing/per-program-harness/eigrpd/tlv.c:357-472 | a route comes back as sent if and only if its network may be announced and its next hop reads the same backwards, or the sender is big-endian; the default route never does |
| `EigrpTlv.RoutesLost` | fuzzing/per-program-harness/eigrpd/tlv.c:159-260 | the next hop 10.0.0.1 of a little-endian sender arrives as 1.0.0.10, and the default route is refused |
| `EigrpTlv.PrefixSurvives` | fuzzing/per-program-harness/eigrpd/tlv.c:446-469 | the bytes sent for a masked prefix restore it |
| `EigrpTlv.WalkRoutes` | fuzzing/per-program-harness/eigrpd/packet.c:347-417 | the walk over a packet returns its routes in order |
| `EigrpTlv.WalkSeq` | fuzzing/per-program-harness/eigrpd/tlv.c:52-94 | a sequence list is returned as sent by the same walk |
| `EigrpTlv.AddrsSurvive` | fuzzing/per-program-harness/eigrpd/tlv.c:275-329 | the addresses of a sequence list are read back in order |
| `EigrpTlv.MtuSurvivesExact` | fuzzing/per-program-harness/eigrpd/tlv.c:474-486 | an MTU survives its three bytes if and only if it is below 2^24 |
| `EigrpUpdate.SendingEndsExact` | fuzzing/per-program-harness/eigrpd/update.c:42-84 | sending a list ends if and only if every single route fits into a packet of its own |
| `EigrpUpdate.Stalls` | fuzzing/per-program-harness/eigrpd/update.c:67-84 | otherwise the routes before the first that does not fit are sent and then empty packets follow each other forever |
| `EigrpUpdate.HostRouteStalls` | fuzzing/per-program-harness/eigrpd/update.c:67-84 | an external host route at an MTU of 88 is never sent |
| `EigrpUpdate.UpdateRoundTrip` | fuzzing/per-program-harness/eigrpd/update.c:42-84 | every packet respects the MTU and reading all packets returns the original list in order |
| `EigrpUpdate.Buffer.AddRoute` | fuzzing/per-program-harness/eigrpd/tlv.c:159-260 | appends the record and patches its length when it is known |
| `EigrpUpdate.SendUpdate` | fuzzing/per-program-harness/eigrpd/update.c:32-91 | on any list, watched for any number of packets, the loops hand off the specified packets and have the specified rest left; a list that fits is sent as packed; a missing list makes one packet without routes |
| `EigrpUpdate.SendRounds` | fuzzing/per-program-harness/eigrpd/update.c:42-86 | the loop behind it, which stops with the packet that empties the list and not before |
| `EigrpUpdate.FillPacket` | fuzzing/per-program-harness/eigrpd/update.c:67-80 | the inner loop takes exactly the routes that fit |
| `EigrpUpdate.ReceiveRecords` | fuzzing/per-program-harness/eigrpd/packet.c:347-417 | the record loop of a received packet computes the walk |
| `Cbc.UnchainChain` | fuzzing/per-program-harness/isakmpd/crypto.c:123-166 | for any invertible block function decryption undoes encryption under the same vector |
| `Cbc.UnchainAt` | fuzzing/per-program-harness/isakmpd/crypto.c:143-166 | each plain block depends on two neighbouring cipher blocks only |
| `Cbc.XorUndo` | fuzzing/per-program-harness/isakmpd/crypto.c:123-166 | exclusive or with the same block twice is the identity |
| `Cbc.Conversation` | fuzzing/per-program-harness/isakmpd/crypto.c:263-309 | for every sequence of non-empty block-multiple messages the receiver recovers each, and both hold equal vectors in use after every message |
| `KeyState.KeyState.constructor` | fuzzing/per-program-harness/isakmpd/crypto.c:226-261 | two distinct zero vectors |
| `KeyState.KeyState.Clone` | fuzzing/per-program-harness/isakmpd/crypto.c:311-332 | an own copy of both vectors in the same orientation |
| `KeyState.KeyState.InitIv` | fuzzing/per-program-harness/isakmpd/crypto.c:276-283 | sets the vector in use and leaves the other alone |
| `KeyState.KeyState.UpdateIv` | fuzzing/per-program-harness/isakmpd/crypto.c:263-274 | swaps the two vectors, which stay distinct |
| `KeyState.KeyState.BlfEncrypt` | fuzzing/per-program-harness/isakmpd/crypto.c:123-141 | the forward loop encrypts in place and ends with the last cipher block as new vector |
| `KeyState.KeyState.BlfDecrypt` | fuzzing/per-program-harness/isakmpd/crypto.c:143-166 | the backward loop decrypts in place |
| `KeyState.KeyState.Encrypt` | fuzzing/per-program-harness/isakmpd/crypto.c:285-294 | encrypts the message, keeps the vector in use and saves the last cipher block |
| `KeyState.KeyState.Decrypt` | fuzzing/per-program-harness/isakmpd/crypto.c:296-309 | decrypts the message and saves its last cipher block before it is overwritten |
| `KeyState.KeyState.SendMessage` | fuzzing/per-program-harness/isakmpd/crypto.c:263-294 | encrypting and swapping is one step of the conversation |
| `KeyState.KeyState.ReceiveMessage` | fuzzing/per-program-harness/isakmpd/crypto.c:263-309 | decrypting and swapping is the matching step |
| `KeyState.Exchange` | fuzzing/per-program-harness/isakmpd/crypto.c:263-309 | any sequence of messages in both directions yields the specified outputs and vectors |
| `KeyState.CloneAgrees` | fuzzing/per-program-harness/isakmpd/crypto.c:311-332 | whatever messages follow, in both directions, a clone produces what the original would have, and neither is affected by the other |
| `KernelRoutes.ChangeTable` | fuzzing/per-program-harness/eigrpd/kroute.c:226-257 | a change adds exactly one written copy of the key its entry is stored with, if there was none, and keeps the table in order |
| `KernelRoutes.ChangeMirrorsExact` | fuzzing/per-program-harness/eigrpd/kroute.c:226-257 | while coupled, a change under any key, wildcard or not, keeps the mirror if and only if its entry is stored under that key, or both keys are written already |
| `KernelRoutes.ChangeExact` | fuzzing/per-program-harness/eigrpd/kroute.c:226-257 | it keeps everything if and only if in addition it makes no second written copy |
| `KernelRoutes.DeleteTable` | fuzzing/per-program-harness/eigrpd/kroute.c:259-286 | a deletion takes exactly one written copy of the key its entry is stored with, and removes what becomes empty |
| `KernelRoutes.DeleteSends` | fuzzing/per-program-harness/eigrpd/kroute.c:259-286 | it is sent exactly for a written entry while coupled, under the key stored with the entry |
| `KernelRoutes.DeleteMirrorsExact` | fuzzing/per-program-harness/eigrpd/kroute.c:259-286 | while coupled it keeps the mirror if and only if there was no second written copy |
| `KernelRoutes.DeleteKeeps` | fuzzing/per-program-harness/eigrpd/kroute.c:259-286 | a deletion keeps the table, the mirror and the log consistent |
| `KernelRoutes.WalkExact` | fuzzing/per-program-harness/eigrpd/kroute.c:296-341 | the walk of coupling and decoupling meets exactly the written keys, each once |
| `KernelRoutes.LearnKeeps` | fuzzing/per-program-harness/eigrpd/kroute.c:546-607 | a route learnt from the kernel changes nothing that was written |
| `KernelRoutes.CoupleKeeps` | fuzzing/per-program-harness/eigrpd/kroute.c:296-317 | coupling adds every written route once and nothing else |
| `KernelRoutes.DecoupleKeeps` | fuzzing/per-program-harness/eigrpd/kroute.c:319-341 | decoupling deletes every written route once and leaves the kernel empty of them |
| `KernelRoutes.RunOk` | fuzzing/per-program-harness/eigrpd/kroute.c:226-341 | in every run whose changes fit, wildcards included, the kernel holds exactly the written routes while coupled and none while decoupled, the table is well formed, and every message can succeed |
| `KernelRoutes.RealRunOk` | fuzzing/per-program-harness/eigrpd/kroute.c:226-341 | the same in every run that uses priorities other than the wildcard, without any condition |
| `KernelRoutes.WildcardExact` | fuzzing/per-program-harness/eigrpd/kroute.c:518-532 | in a coupled table filled with real priorities, a change with the wildcard, 64, breaks the mirror if and only if its next hop is already on the first level of the prefix |
| `KernelRoutes.WildcardBreaks` | fuzzing/per-program-harness/eigrpd/kroute.c:518-532 | a concrete case: a route under priority 10 changed under the wildcard, 64; under priority 0, an ordinary one, the mirror holds |
| `KernelTable.FindPrio` | fuzzing/per-program-harness/eigrpd/kroute.c:518-532 | the scan finds the level of a priority, or the first for the wildcard |
| `KernelTable.FindGw` | fuzzing/per-program-harness/eigrpd/kroute.c:534-544 | the scan finds the next hop |
| `KernelTable.RouteTable.Insert` | fuzzing/per-program-harness/eigrpd/kroute.c:546-607 | makes sure of prefix, level and hop, each in its place |
| `KernelTable.RouteTable.Remove` | fuzzing/per-program-harness/eigrpd/kroute.c:609-652 | takes a hop out, and whatever becomes empty with it |
| `KernelTable.RouteTable.Change` | fuzzing/per-program-harness/eigrpd/kroute.c:226-257 | takes the specified step |
| `KernelTable.RouteTable.Delete` | fuzzing/per-program-harness/eigrpd/kroute.c:259-286 | takes the specified step |
| `KernelTable.RouteTable.CoupleFib` | fuzzing/per-program-harness/eigrpd/kroute.c:296-317 | the nested loops send the specified additions |
| `KernelTable.RouteTable.DecoupleFib` | fuzzing/per-program-harness/eigrpd/kroute.c:319-341 | the nested loops send the specified deletions |
| `Checksum.SumIs` | fuzzing/per-program-harness/dhcpleased/checksum.c:49-73 | reducing after every word is reducing the plain sum once |
| `Checksum.SumChains` | fuzzing/per-program-harness/dhcpleased/checksum.c:49-73 | chaining over segments of even length is summing their concatenation |
| `Checksum.AlgorithmsAgree` | fuzzing/per-program-harness/dvmrpd/in_cksum.c:50-82 | both algorithms agree on every buffer below 64 kilobytes, and the deferred sum never overflows 32 bits |
| `Checksum.WrapSumStored` | fuzzing/per-program-harness/dhcpleased/checksum.c:75-80 | on either kind of machine the wrapped sum is stored most significant byte first |
| `Checksum.IpVerifies` | fuzzing/per-program-harness/dhcpleased/frontend.c:1124-1135 | a completed IP header sums to all ones |
| `Checksum.FrameAccepted` | fuzzing/per-program-harness/dhcpleased/engine.c:809-881 | whatever the payload and the padding behind the frame, the receiver accepts it and recovers the payload |
| `Checksum.ComputeChecksum` | fuzzing/per-program-harness/dhcpleased/checksum.c:49-73 | the loop computes the reduced sum |
| `Checksum.ComputeInCksum` | fuzzing/per-program-harness/dvmrpd/in_cksum.c:50-82 | the loop and the two folds compute the deferred sum for either alignment, and refuse larger buffers |
| `Checksum.BuildFrame` | fuzzing/per-program-harness/dhcpleased/frontend.c:1124-1155 | fills in headers and checksums as specified |

## Left out

- IPv6 in every daemon; the EIGRP address comparison for IPv6 is not an order.
- Network-wide loop freedom of DUAL: the feasible distance is overwritten on every successor choice and can rise while passive.
- Stuck-in-active timers and queries of EIGRP, address summarisation, the end and push framing of messages, and several routing instances at once.
- What a handler finds in a prefix it has deleted, which is undefined; the place is marked (`DualDeleted.LinkDownMarksExact`, `DualDeleted.QueryMarksExact`).
- DualKernel.KernelExact: summary routes, which go to the kernel as blackholes under a priority of their own, and messages lost between the processes.
- DualRuns.ClosesWithin2n: only updates, queries and replies, because removing a neighbour drops its replies without closing the computation.
- DualReplies.RunBalanced: only updates, queries and replies; a lost link can close a computation whose successor is the lost neighbour.
- EigrpMetric.PathMetric: K5 is zero and wire bandwidths lie in the range the decoder can divide by.
- RtpChannel.InOrderExactlyOnce: no wrap-around of the sequence number, for which `RtpReceiver.WrapAroundExact` shows what happens.
- RtpChannel.RoundTripAdvances: heads without a timer or with the conditional flag, which do not advance in this way (`RtpStall.HeadWaits`, `RtpChannel.BusyNeverAccepts`).
- Failures of the socket calls that send packets.
- DhcpLease.RunSafe: the configured routes, name servers and lease file that travel with an address are not replayed.
- DhcpTiming.GivenUp: runs in which nothing but the timer happens, and timers punctual to the second.
- The retransmission timeouts of Requesting and Rebooting are unbounded integers; a user can double them without limit by repeated reboot requests.
- DhcpParser.Parser.ParseAll: host and domain names, which are only stored, and the bytes behind the end marker, which are only logged.
- DvmrpReport.RoundTrip: DVMRP neighbour states, and the route and forwarding-cache logic behind the reports.
- EigrpTlv.RouteSurvivesExact: external attributes of an internal route, which the receiver leaves over from an earlier record, and prefix lengths above 32, whose mask shift is undefined.
- EigrpUpdate.SendUpdate: the content of the twenty-byte packet header, and allocation failures; queries and replies repeat the same loop.
- Cbc.Conversation: DES, CAST and AES, which are library ciphers.
- KernelRoutes.RunOk: failed writes to the routing socket, redistribution, and kernel deletions of eigrpd's own routes.
- Checksum.ComputeChecksum: start values above 65535, which neither caller passes while the IP length fits 16 bits.
- Control sockets, configuration, logging, privilege separation and the fuzzing glue.
