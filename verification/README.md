# ANTop: address allocation, relabelling and message handling

ANTop is a daemon for ad-hoc networks. Its nodes take positions in a 64-dimensional hypercube: a node owns
the space `(addr, mask)`, all host addresses that agree with `addr` on the first `mask` bits. This project
models how that space is handed out, recovered, relabelled when a network breaks apart and merged when two
networks meet, and proves what the protocol keeps over whole runs. It also models the routines the daemon
stands on: distances and next hops, the timer queue, the neighbour table, the netlink message builder and
the Internet checksums.

`dafny verify dfyconfig.toml` verifies everything (Dafny 4.11).

## How it is organised

- `Hypercube`, `Metric`, `Words`, `AddressWords`: host addresses as 64 bits, spaces, the Hamming distance,
  and the loops over eight 16-bit words in network byte order, proved to compute these notions. `Words`
  spells out the C operators on 16-bit values.
- `Allocation`: one daemon. Functions on the value `Node` specify the methods of the class `Daemon`, which
  work on its fields as the C code works on its globals. `AllocationRun` and `AllocationResults`: a tree of
  daemons in which PAR, PAP, PAN, PANC, heartbeats, SAP, SAN, departures, ageing and release happen in any
  order. `AllocationReuse`: what becomes of the space of a child that left. `AllocationDiscipline`: five rules
  that make every run safe. `AllocationCollisions`: a run for each rule that breaks only this one.
- Two measures carry the partition proofs: membership of one address and number of addresses. A ledger says
  that a daemon's initial space is exactly what it holds, what is in limbo below it, and its children's
  initial spaces. *Limbo* is space that nobody holds: granted and not yet confirmed, departed and not yet
  aged out, or leaked for good.
- `Relabelling`, `RelabelledTree`, `RelabelFit`: one map, "bits from m0 on move to position p behind a prefix",
  covers the left shift of a fragmentation (p = 0) and the embedding of a merge (p = s + 1).
- `FragmentationFlood`, `FragmentationRun`: the handlers as a class and the FAR/FAN flood over a subtree.
- `Embedding`, `MergeNode`, `MergeTree`, `MergeFlood`, `MergeReact`, `MergeRun`, `MergeSteps`,
  `MergeProgress`, `MergeOutcome`, `MergeNetworks`, `MergeFit`, `MergeResults`, `MergeLoss`: `shift_mezcla`, the
  handlers as a class, the merged labels, and the MAR/MAN flood seen from the proposer. `MergeGuards`: what the
  guards are worth when packets are duplicated or overheard. `MergeTables`: the neighbour tables that a merge
  leaves. `MergeBack`: a fragmentation run followed by a merge run. `MaskLimit`: reachable networks whose masks are too long, each with
  the complete flood that goes wrong.
- `Rendezvous`, `NextHop`, `TimerQueue`, `Neighbours`, `Bytes`, `Attributes`, `Messages`, `Batches`,
  `Checksum`: the other components. `HeartBeatSteps` ties the neighbour table of `Neighbours` to the heartbeat
  and ageing steps of the allocation runs. `TimerQueue` is a linked list of objects; the other linked lists of the C
  code are fields of type `seq` that the methods reassign.

## Assumptions

- `hc_dim` is 64, where `dist`, `send_pap` and `chk_sec_addr1` line up.
- A member that leaves takes its subtree out of the network; the subtree on its own is the fragmentation case.
  A child is aged out only after it left. Any other neighbour may be aged out at any time, whether it left or
  went out of range; heartbeats come from members, for their primary and secondary addresses.
- Fragmentation and merge runs: neighbours are exactly the tree links, there are no secondary addresses, no
  joins happen meanwhile, delivery is reliable along links, and an answer reaches a daemon only while it has
  the address to which the answer was sent. Packets of all kinds may be delivered in any order.
- Merge runs: before the merge, no mask in the receiver's network exceeds 63. A daemon with mask 64 may have
  `dir_default`, by which the proposer's packets are recognised, as its own address (`MaskLimit.DefaultIsTaken`).
  No split above the receiver reaches mask 255, where the unsigned char wraps around. The proposer's network is
  arbitrary.
- In `MergeGuards` any packet that was ever sent may reach any daemon any number of times; the other merge runs
  deliver each packet once, along its link.
- The children in the tree above a merge's receiver are listed in the order of the neighbour table, which
  decides the masks of the MAR2 packets; where a daemon lists its own parent is arbitrary.
- A timer's handler does nothing to the queue or re-arms its own timer. Times and clock readings are unbounded
  integers, so `timeval_diff` does not overflow.
- Handlers of netlink messages and attributes are arbitrary functions of the message or attribute.

## What the proofs found

- Five things break the partition, and nothing else does (`AllocationDiscipline.DisciplineIsSafe`,
  `AllocationCollisions.EveryRuleIsNeeded`): two PARs answered before either PAN arrives; a PAR answered
  while a SAP is outstanding, or the other way round; a recovered space that was offered once (`rcvd_offered`
  is never reset) and comes up again as the next buddy; a secondary space given up while an offer is
  outstanding; and a neighbour that is no child but looks like one to `check_succesor`, so that two daemons
  recover its space, which takes an initial mask above 16. A SAN that comes after the timer of its SAP does no
  harm. A run keeps every ledger exact in all its states if and only if each of its steps is safe
  (`AllocationRun.RunExact`); `PanExact`, `SanExact` and `ForgetExact` say when a step is.
- `check_succesor` misses children split off at bit 48 or later, so their space is never recovered.
- A mask of 64 reaches the root's bit, which `shift` strips and sets again. A detached subtree becomes a network
  with exact ledgers if and only if no space in it had mask 64 or the detached daemon has a single address
  (`FragmentationRun.FloodMakesNetwork`). A merge does if and only if no split above the receiver reaches mask 64
  and no space of the receiver's subtree does at its new place; in particular the proposed mask must be at most
  62 (`MergeResults.MergeMakesOneNetwork`). Runs by the rules lead to networks where a complete flood fails for
  each of these reasons (`MaskLimit`): detaching, too little room above the receiver, and proposed masks of 62,
  63 and 64.
- At the receiver of a merge, a MAN2 from the former parent that comes before the first MAN1 wipes the
  recovered list; that space is lost (`MergeLoss.ListKeptExactly`).
- After a merge every daemon but the receiver and the proposer lists only the daemon from which its MAR came, under
  the address that this daemon had before the merge; a receiver that had a neighbour with the proposer's address
  lists nobody (`MergeTables.MergeLeavesTables`). After a fragmentation a daemon without children lists its parent
  under both its addresses (`FragmentationRun.FloodMakesNetwork`). The right entries have to come with heartbeats.
- A detached node without children never clears `flag_fragmentacion` (`FragmentationRun.FloodMakesNetwork`).
- With a secondary address, `rv_route` ignores the recovered spaces outside it. A destination outside limbo is
  processed by nobody exactly when its owner has it in the recovered list and a secondary address
  (`Rendezvous.UniqueRendezvousOwner`), which happens in a run by the rules (`Rendezvous.UnservedDestination`).
- `mnl_attr_put` truncates lengths to 16 bits, and `mnl_nlmsg_ok` admits lengths of 2^31 and more.
- For an odd length, `cksum_sum` adds a word with one stale byte: the result is the padded sum if and only if that
  byte is zero and, when words are swapped, so is the last one (`Checksum.OddExact`).

## Model

| member | source | states |
|---|---|---|
| `Allocation.Daemon.SendPap` | hcb_address.c:138-214 | Answers a PAR with the last entry of the recovered list if none was ever offered, and remembers its address; else with the next buddy and a mask one larger, or with nothing exactly if the mask is 64 or more; only the offered mark changes. |
| `Allocation.OffersLastRecovered` | hcb_address.c:141-150 | For every recovered list that ends with a space e, a daemon that never offered one answers with e and remembers e's address. |
| `Allocation.OffersNextBuddy` | hcb_address.c:152-214 | Otherwise it remembers nothing and answers with the adjacent space behind the first free bit, under a mask one larger, exactly if the mask is below 64. |
| `AllocationReuse.DepartedIsOffered` | hcb_address.c:141-150 | Anywhere in a network, if a child split off before bit 48 left and is aged out at a daemon that never offered a recovered space, the next PAR there is answered with exactly that child's space. |
| `AllocationReuse.DepartedIsReplaced` | hcb_address.c:120-278 | PAN and PANC then make the newcomer a child with exactly that space; of the parent nothing but the offered mark has changed, and the space is out of limbo. |
| `AddressWords.ToggleChildBit` | hcb_address.c:174-186 | Adding or subtracting the swapped power of two toggles exactly host bit prim_mask and leaves the network words alone. |
| `Allocation.Daemon.SendPanc` | hcb_address.c:250-254 | A PAN for the offered recovered space takes that entry off the list; any other PAN raises the mask by one (as an unsigned char). |
| `Allocation.ChooseOffer` | hcb_address.c:515-529 | Of the PAPs received, the first one with the smallest mask is chosen. |
| `Allocation.Daemon.DelRcvdAddrTable` | heart_beat.c:467-481 | Unlinks exactly the first recovered entry with the address and reports whether there was one. |
| `Allocation.Daemon.RecoverAddrSpace` | heart_beat.c:387-413 | Appends the space to the recovered list. |
| `Allocation.Daemon.SendSap1` | secondary.c:67-86 | Proposes a secondary space only when no proposal is outstanding and the space is next to the daemon's own address. |
| `Allocation.Daemon.ChkSecAddr1` | secondary.c:221-269 | With no recovered space next to the neighbour, proposes the buddy of the least free bit that lies next to both the neighbour and the daemon, and nothing exactly if there is none; else the first recovered space next to the neighbour, if it is next to the daemon. At most one proposal becomes outstanding. |
| `Allocation.ProposesLeastBuddy` | secondary.c:234-269 | Without a secondary address, an outstanding proposal or a near recovered space, a bit is proposed if and only if one from the mask on leads to an address at distance one from both; it is the least such bit. |
| `Allocation.ProposesFirstRecovered` | secondary.c:225-232 | The first recovered space next to the neighbour decides: it is proposed if it is next to the daemon, else nothing is, whatever other spaces there are. |
| `Allocation.ProposesOnlyWhenFree` | secondary.c:67-86 | With a secondary address or an outstanding proposal nothing is proposed. |
| `Allocation.Daemon.ProcessSan1` | secondary.c:171-216 | Takes the space as secondary space, raises the mask when the space lies beyond it at distance one, takes it off the recovered list, and lists the sender once more. |
| `Allocation.Daemon.CheckNeighOfSecondaryAddress` | secondary.c:274-323 | Gives the secondary space up exactly when the linked neighbour or the distances are gone, by rolling the mask back or by listing the space. |
| `Allocation.SuccessorExact` | heart_beat.c:311-383 | At distance one, a neighbour is a successor exactly when the differing bit is zero here and so is the rest of its word. |
| `Allocation.ChildIsSuccessor` | heart_beat.c:311-383 | A child is recognised exactly when it was split off before bit 48; in the last word the root's bit is in the way. |
| `Allocation.NonChildIsSuccessor` | heart_beat.c:311-383 | A neighbour that is no child is taken for one exactly when every later bit of the word is zero, which never happens with an initial mask of at most 16. |
| `AddressWords.CheckSuccesor` | heart_beat.c:311-383 | The loops over words and masks decide the successor relation for addresses that differ in at most one word. |
| `AllocationRun.PanHoldings` | hcb_address.c:250-254 | A current PAN takes exactly the granted space out of what the parent holds, under every measure. |
| `AllocationRun.PanExact` | hcb_address.c:250-254 | A PAN keeps every address accounted for once if and only if the offer is current: still listed if recovered, else the next buddy. |
| `AllocationRun.SanHoldings` | secondary.c:171-203 | Accepting a secondary space keeps the sum of what is held and what is in limbo if the space is current, and counts the space twice if not. |
| `AllocationRun.SanExact` | secondary.c:171-203 | A SAN keeps every address accounted for once if and only if the space is free, recovered, already the own secondary space, or leaked. |
| `AllocationRun.ReleaseKeepsHoldings` | secondary.c:304-311 | Both ways of release leave the set and the number of owned addresses unchanged. |
| `AllocationRun.ExpireRecovers` | heart_beat.c:449-456 | A departed child's space is recovered unless it was split off at bit 48 or later. |
| `AllocationRun.ForgetExact` | heart_beat.c:449-454 | Ageing out a neighbour that is no child keeps every address accounted for once if and only if it is not adjacent, or a bit from the differing one to the end of its word is set here; initial masks of at most 16 suffice. |
| `AllocationRun.RunKeepsInv` | hcb_address.c:120-278 | Over every run of joins, departures, recoveries, re-offers, heartbeats, ageing, acquisitions and releases in which PANs and SANs are current and no neighbour is mistaken for a child, every daemon's ledger stays exact. |
| `AllocationRun.StepExact` | hcb_address.c:120-278 | A step anywhere in a network with exact ledgers keeps them exact if and only if it is safe. |
| `AllocationRun.RunExact` | hcb_address.c:120-278 | A run keeps all ledgers exact in all its states if and only if all its steps are safe. |
| `AllocationResults.RunPartitionsHypercube` | hcb_address.c:120-278 | After every such run each of the 2^64 addresses is owned by exactly one daemon or waits in exactly one limbo, and the sizes add up to 2^64. |
| `AllocationResults.RunKeepsAddressesDistinct` | hcb_address.c:174-186 | After every such run no two members share an address and every child is at distance one from its parent. |
| `AllocationResults.LivePartitionExact` | heart_beat.c:387-413 | The daemons' own and recovered spaces alone cover everything exactly when nothing is in limbo. |
| `AllocationResults.InnerNeighbourIsChild` | heart_beat.c:242-303 | The heartbeats a daemon hears from distance one inside its initial space are its children's, so that ageing of children and of other neighbours covers the whole table. |
| `AllocationDiscipline.DisciplinedRunPartitions` | hcb_address.c:141-150 | Every run by the five rules, with secondary addresses, is safe, partitions the hypercube and keeps addresses distinct. |
| `AllocationDiscipline.SapIsCurrent` | secondary.c:221-269 | What `chk_sec_addr1` proposes is a buddy of the daemon that nobody else has. |
| `AllocationDiscipline.SanKeepsOrder` | secondary.c:171-203 | Accepting one SAN leaves every other outstanding proposal current, whatever the timers did. |
| `AllocationDiscipline.DisciplineIsSafe` | hcb_address.c:120-278 | From any orderly network, a run by the rules has only current PANs and SANs and recovers only children. |
| `AllocationCollisions.EveryRuleIsNeeded` | hcb_address.c:141-251 | For each rule there is a run from the founder that follows the four others and gives one address to two owners. |
| `AllocationCollisions.TwoOutstandingOffersCollide` | hcb_address.c:250-251 | A run in which two PARs are answered before either PAN arrives, and that follows the other rules, gives one address to two members. |
| `AllocationCollisions.StaleRecoveredOfferCollides` | hcb_address.c:141-150 | A run with one offer or proposal at a time in which rcvd_offered, never reset, lets a grant leave the newcomer inside the parent's space. |
| `AllocationCollisions.ReachDoubled` | heart_beat.c:449-454 | With 19 members, a daemon with initial mask 17 and the parent of its distant neighbour both recover that neighbour's space. |
| `Rendezvous.RvRoute` | pkt_handle.c:974-1006 | The packet is processed here exactly when the destination lies in the own space, or in the secondary space if there is one, else in a recovered space. |
| `Rendezvous.UniqueRendezvousOwner` | pkt_handle.c:974-1006 | After every safe run a destination is processed at exactly one daemon if it is in no limbo and not owned through the recovered list of a daemon with a secondary address alone; otherwise at none. |
| `Rendezvous.SecondaryHidesRecovered` | pkt_handle.c:992-1005 | With a secondary address, processing agrees with ownership exactly for the destinations that are not owned through the recovered list alone. |
| `Rendezvous.UnservedDestination` | pkt_handle.c:992-1005 | A run by the rules leads to a network in which a destination outside limbo is processed by nobody. |
| `Metric.DistIsMetric` | pkt_handle.c:353-367 | The distance is zero only for equal host parts, symmetric, and satisfies the triangle inequality. |
| `Metric.DistOne` | pkt_handle.c:353-367 | Distance one means exactly one flipped bit. |
| `Metric.MaskedDistance` | pkt_handle.c:312-349 | The masked distance never exceeds the distance and is zero exactly inside the space. |
| `AddressWords.DistOf` | pkt_handle.c:353-367 | The counting loops compute the Hamming distance of the host parts. |
| `AddressWords.DistWMask` | pkt_handle.c:312-349 | The counting loops compute the distance on the first prim_mask bits, for all masks from 0 to 64. |
| `AddressWords.CheckAddrSpace` | pkt_handle.c:858-910 | Returns 0 exactly when the address lies in the space, for all masks from 0 to 64. |
| `NextHop.RouteInfo.SendToNextNeighbor` | pkt_handle.c:513-713 | Marks the sender, sends back exactly when every available neighbour was visited, and otherwise selects and marks an available unvisited one, never the sender: while the count is below two, one that differs from the destination in the fewest bits (under its own mask for rendezvous packets, else in the whole host part), later the first; the missing-next-hop exit is unreachable. |
| `NextHop.RouteInfo.Closest` | pkt_handle.c:612-634 | The loop finds a free neighbour that differs from the destination in the fewest bits, counted under the neighbour's mask for rendezvous packets and over all host bits otherwise; among equals the last one that owns the destination after the first, else the first. |
| `NextHop.RendezvousChoice` | pkt_handle.c:616-632 | Below a count of two, a rendezvous packet goes to the last free neighbour whose space contains the destination if there is one, and otherwise to the first of those that differ from it in the fewest bits under their own masks. |
| `NextHop.OrdinaryChoice` | pkt_handle.c:616-632 | Any other packet goes to a free neighbour with the fewest differing host bits: the last such one that owns the destination, else the first. |
| `NextHop.LaterChoice` | pkt_handle.c:635-647 | From a count of two on, the first free neighbour is chosen. |
| `NextHop.MarkedExactly` | pkt_handle.c:513-524 | After any packets of a route a neighbour is marked exactly if it was before, was chosen, or sent one of them. |
| `NextHop.CountExactly` | pkt_handle.c:513-524 | The count grows by one for each packet that came from a listed neighbour, modulo 2^32. |
| `Metric.DiffCounts` | pkt_handle.c:312-367 | Both distances are the number of positions where the addresses differ. |
| `NextHop.SelectionUnique` | pkt_handle.c:612-647 | The selection is determined by the table, the bitmap and the count. |
| `NextHop.RouteInfo.ClearVb` | pkt_handle.c:172-191 | Clears the bitmap and keeps the count. |
| `NextHop.ForwardingsBounded` | pkt_handle.c:528-535 | Between two clearings no neighbour is chosen twice, and a route is forwarded at most once per available neighbour. |
| `AddressWords.ShiftUnos` | funciones.c:217-286 | The carry loops between the two byte swaps are a logical shift of all 128 bits. |
| `AddressWords.Shift` | funciones.c:291-404 | The network words become the root's; the host bits without the root's are shifted, and the root's are set again. |
| `Words.ShlIsTimes` | funciones.c:345-358 | A left shift is multiplication by 2^k modulo 2^n on the value of the bits. |
| `Words.ShrIsDivide` | funciones.c:360-373 | A right shift is division by 2^k. |
| `Relabelling.ShiftDetaches` | fragmentacion.c:211-213 | The shift by the initial mask moves the address up under the root's bit. |
| `FragmentationFlood.Station.Fragmentacion` | fragmentacion.c:184-250 | Shifts address, mask and recovered entries, sends a FAR to every neighbour and leaves an empty table; the offered mark stays. |
| `FragmentationFlood.Station.ProcessFar` | fragmentacion.c:319-393 | Shifts by the packet's mask, answers with a FAN, forwards to everyone but the old and new parent address and itself, and waits exactly if it forwarded. |
| `FragmentationFlood.Station.ProcessFan` | fragmentacion.c:405-416 | Ends the waiting and changes nothing else. |
| `FragmentationRun.HeardExactly` | fragmentacion.c:365-381 | For any table: a daemon that has split its space forwards a FAR once for each entry, except to the sender's two addresses and its own new one, and keeps only the last two of these; another one forwards nothing and adds the sender. |
| `Relabelling.RelabelPartitionsExactly` | fragmentacion.c:211-224 | Relabelling a partition of (a, m0) gives a partition of the target space if and only if every entry is carried over whole or the only entry is the space itself. |
| `RelabelledTree.RelabelExact` | fragmentacion.c:341-354 | The same for all spaces of a whole subtree: the condition is a bound on each mask. |
| `RelabelledTree.RelabelKeepsInv` | fragmentacion.c:341-384 | All ledgers of a subtree survive a relabelling that carries it over whole. |
| `RelabelFit.RelabelInvExact` | fragmentacion.c:341-384 | The ledgers of a subtree survive a relabelling if and only if all its spaces are carried over whole. |
| `RelabelledTree.FragmentKeepsInv` | fragmentacion.c:201-244 | A detached subtree with masks of at most 63 becomes a network with exact ledgers over the whole hypercube, and the detached daemon holds the root address. |
| `FragmentationRun.TargetsAreKids` | fragmentacion.c:365-378 | A daemon forwards a FAR to each child once and to nobody else. |
| `FragmentationRun.ApplyKeepsDone` | fragmentacion.c:253-416 | Every delivery of a FAR or FAN, in any order, keeps the flood on course and is one of the packets due. |
| `FragmentationRun.FloodTerminates` | fragmentacion.c:184-416 | Every run takes at most one FAR and one FAN per daemon below the detached one, and is stuck exactly when it has taken all of them. |
| `FragmentationRun.FloodMakesNetwork` | fragmentacion.c:184-416 | When the flood is over every daemon was relabelled exactly once, and only a detached daemon without children still waits; the spaces partition the hypercube, and the ledgers are exact over it, if and only if no space had mask 64 or the detached daemon has a single address. The detached daemon's table is empty; below it, a daemon that has split its space lists its parent's new address alone (nobody, if that is its old one), any other one both addresses of its parent. |
| `FragmentationRun.OldChildrenAreGone` | fragmentacion.c:233-241 | After every complete flood no daemon lists the address that a child of its had before. |
| `FragmentationRun.FloodCompletes` | fragmentacion.c:184-416 | Every flood has a complete run. |
| `Embedding.ShiftMezcla` | mezcla.c:277-318 | The words computed by shift, shift_unos and OR are the two-branch bit formula. |
| `Embedding.BothBranchesEmbed` | mezcla.c:287-314 | For every proposed mask, both branches are one embedding below (src, bit s), for mf >= 1 exactly on addresses with bit mf - 1 set; from mask 63 on every address becomes src. |
| `Embedding.RelabelKeepsDistances` | mezcla.c:287-314 | The embedding is injective and keeps distances on addresses that are carried over whole. |
| `Embedding.FragmentThenMergeRestores` | fragmentacion.c:341-384 | Detaching a child subtree and merging it back under the same parent restores every address, mask, initial mask and recovered entry. |
| `MergeBack.DetachedAndMergedBack` | mezcla.c:240-741 | After a complete FAR/FAN flood and a complete merge back under the old parent, every daemon of the subtree has its old address, masks and recovered entries. |
| `MergeBack.ParentIsBack` | mezcla.c:245-256 | A parent that recovered only its lost child's space proposes exactly that child's place, and has its own labels back after the merge. |
| `MergeNode.Station.Mezcla` | mezcla.c:240-274 | Proposes one less than the mask of the first recovered space, which leaves the list, or the own mask, and waits under the default address. |
| `MergeNode.ProposesFirstMasked` | mezcla.c:245-256 | The first recovered space with a mask, and no other, leaves the list, and the MAR1 carries its mask less one. |
| `MergeNode.Station.ProcessMar1` | mezcla.c:406-507 | Applies the mask equations, sends MAR1 to neighbours farther from the root and MAR2 with growing masks to the others, and relabels at once exactly if it sent none. |
| `MergeNode.Station.ProcessMar2` | mezcla.c:598-648 | Takes the granted mask, sends MAR2 with growing masks to all other neighbours, and relabels at once exactly if it sent none. |
| `MergeNode.Station.ProcessMan1` | mezcla.c:660-709 | Restores the proposer's address and raises its mask if it proposed that mask, or relabels a waiting daemon; otherwise nothing. |
| `MergeNode.Station.ProcessMan2` | mezcla.c:715-741 | A waiting daemon takes the echoed address and drops its recovered list; otherwise nothing. |
| `MergeNode.Station.AntopProcessPkt` | antop_socket.c:373-411 | A MAR of the own network, a MAR1 for another address and a MAN of another network leave the whole state unchanged and send nothing; a proposer under the default address that hears a MAR1 of its own network takes its old address back and stops waiting. |
| `MergeGuards.GuardsExact` | antop_socket.c:373-411 | What each guard keeps out, in terms of the packet's network number and destination and the daemon's address. |
| `MergeGuards.AnsweredExactly` | antop_socket.c:380-395 | Exactly the MAR2s of another network, and the MAR1s of another network for the own address, are answered; the daemon then has the sender's network number, and without an answer nothing is sent and the table stays. |
| `MergeGuards.AnswersOnce` | mezcla.c:684-741 | An answer that reaches a daemon that does not wait changes nothing. |
| `MergeGuards.AtMostOnce` | antop_socket.c:373-411 | In every run in which any packet may reach any daemon any number of times, each daemon accepts at most one MAR and moves at most once; who accepted none, outside the proposer's network, is as it was, and who accepted one waits at its old address until it has moved. |
| `MergeGuards.AnswerFields` | mezcla.c:484-507 | The addresses, mask and network number in the answers to MAR1 and MAR2. |
| `MergeReact.LoopSends` | mezcla.c:460-480 | With neighbours that are exactly the tree links, each child gets one MAR1 and the parent one MAR2 for the next buddy of the new space. |
| `MergeFlood.MarsInOrder` | mezcla.c:460-480 | For any table, each neighbour that is not passed over gets one packet, in table order: a MAR1 if and only if it is farther from the root than the daemon, else a MAR2. |
| `MergeFlood.GrantsInOrder` | mezcla.c:622-636 | For any table, process_mar2 grants all neighbours but the sender successive masks in table order. |
| `MergeReact.ReceiverReacts` | mezcla.c:406-507 | The receiver's masks, packets, answer and waiting, whether or not a neighbour has the proposer's address. |
| `MergeReact.DownReacts` | mezcla.c:434-507 | The same for a daemon below the receiver. |
| `MergeReact.Mar2Reacts` | mezcla.c:598-648 | A daemon above the receiver grants successive buddies to all its other neighbours in table order, for masks up to 254. |
| `MergeTree.ReallocInv` | mezcla.c:598-637 | Successive buddy splits give the daemons above the receiver exact ledgers inside the granted space. |
| `MergeTree.ReallocExact` | mezcla.c:604-614 | The addresses that successive splits give are distinct if and only if no mask of the splits exceeds 63. |
| `MergeTree.GraftedInv` | mezcla.c:444-446 | The receiver's embedded subtree together with the re-allocated rest keeps exact ledgers inside the proposed space. |
| `MergeTree.HostHoldings` | mezcla.c:245-256 | What the proposer gives away is exactly the space it proposed, from its own space or from the recovered list. |
| `MergeTree.HostHoldingsExact` | mezcla.c:245-256 | That is so if and only if the proposed mask is at most 62; from 63 on, the proposer stays inside the space it gives away. |
| `MergeProgress.AdvanceDown` | mezcla.c:322-741 | Every packet processed anywhere in the receiver's network keeps the merge on course. |
| `MergeOutcome.AnswersCommuteExactly` | mezcla.c:684-734 | The receiver ends with the same address and masks whichever MAN comes first and ignores all later ones; its recovered list survives a first MAN2 exactly when it is empty. |
| `MergeOutcome.ReceiverMerged` | mezcla.c:322-741 | When nothing is due, every daemon of the receiver's network carries the labels of the grafted network. |
| `MergeNetworks.RerootOk` | mezcla.c:465-477 | Seen from any daemon, a network with exact ledgers is that daemon's subtree and a tree above it with distinct neighbour addresses. |
| `MergeNetworks.MergeCanStart` | mezcla.c:322-350 | For every network and receiver there is an idle state from which a merge starts. |
| `MergeResults.MergeTerminates` | antop_socket.c:373-411 | Every run processes at most one MAR and one MAN per daemon of the receiver's network and is stuck only when nothing is due. |
| `MergeResults.MergeMakesOneNetwork` | mezcla.c:240-741 | After every complete run each daemon accepted one MAR and moved once and the proposer has its address back. The two networks are one with exact ledgers if and only if no split above the receiver reaches mask 64 and all spaces of its subtree are carried over whole; the addresses are distinct if and only if there was that room, the proposed mask is at most 62 and every daemon of the subtree kept an address of its own. Only the receiver's recovered list depends on the order. |
| `MergeTables.MergeLeavesTables` | mezcla.c:459-482 | After every complete run the proposer's table is unchanged, the receiver lists the proposer alone (nobody, if it had listed that address), every other daemon lists only the former address of the daemon its MAR came from, and nobody lists the old address of a daemon to which it passed the MAR on. |
| `MergeResults.UnionExact` | mezcla.c:598-637 | The same two equivalences for the labels of the merged network. |
| `MergeFit.GraftSeparate` | mezcla.c:444-507 | With room, and if every daemon of the subtree keeps an address of its own, no address of the receiver's network is given twice or lies outside the proposed space. |
| `MergeFit.UnplacedDoubles` | mezcla.c:287-314 | If the bit of some child in the subtree falls on the root's bit, some address is given twice. |
| `MergeLoss.ListKeptExactly` | mezcla.c:723-734 | Every complete run keeps the receiver's recovered list if and only if the receiver has no parent or no recovered entry. |
| `MergeLoss.LosingRun` | mezcla.c:723-734 | For a receiver with a parent there is a complete run, in which the parent's MAN2 comes first, that leaves the recovered list empty. |
| `MaskLimit.DetachingFails` | fragmentacion.c:211-213 | A run by the rules leads to a network with a child for which a complete FAR/FAN flood leaves labels that do not partition the hypercube. |
| `MaskLimit.MergingFails` | mezcla.c:604-614 | A run by the rules leads to a network of 64 members for which a complete merge gives an address twice. |
| `MaskLimit.DeepProposalFails` | mezcla.c:245-274 | For each proposed mask from 62 to 64, a proposer and a receiver with one child, both reached by the rules, and a complete merge that gives an address twice. |
| `MaskLimit.DefaultIsTaken` | mezcla.c:406-420 | A run by the rules gives a daemon the default address, by which `process_mar1` recognises a proposer. |
| `MergeResults.IntactLedgers` | mezcla.c:240-741 | Exact ledgers over the whole hypercube mean distinct addresses, disjoint spaces and adjacent links. |
| `TimerQueue.TimerQueue.TimerRemove` | timer_queue.c:164-189 | Unlinks exactly this timer, keeps the list acyclic and sorted, clears its flag, and returns -1 exactly if it was not queued. |
| `TimerQueue.TimerQueue.TimerAdd` | timer_queue.c:75-137 | Takes a queued timer out first, then links it behind all timeouts that are not later; flags mark exactly the queued timers. |
| `TimerQueue.TimerQueue.TimerAddMsec` | timer_queue.c:192-208 | Queues the timer msec after the present. |
| `TimerQueue.TimerQueue.TimerTimeout` | timer_queue.c:43-72 | Runs the handlers of exactly the expired prefix in order; handlers that re-arm their own timer act on the remaining queue. |
| `TimerQueue.TimerQueue.TimerAgeQueue` | timer_queue.c:222-242 | Runs what is due and reports head minus now, if there is a head. |
| `TimerQueue.DueExactly` | timer_queue.c:47-49 | In a sorted queue the due timers are exactly the prefix that is cut off. |
| `TimerQueue.InsertSorted` | timer_queue.c:114-129 | Insertion keeps the order, and equal timeouts stay first in, first out. |
| `TimerQueue.InsertAdds` | timer_queue.c:122-129 | Insertion adds the timer and nothing else. |
| `TimerQueue.RunKeepsOrder` | timer_queue.c:63-71 | Re-arming handlers keep the queue sorted and free of duplicates, whatever the clock shows. |
| `TimerQueue.RunLeavesFuture` | timer_queue.c:63-71 | Nothing that was due is left, unless a handler re-armed its timer into the past. |
| `TimerQueue.TimedOutExactly` | timer_queue.c:43-72 | After the handlers have run, the queue holds exactly the timers that were not due, with their timeouts, and each expired timer whose handler re-armed it, msec after what that handler read on the clock. |
| `TimerQueue.LaterExact` | timer_queue.c:200-202 | The timeout is exactly msec later; it is normalised unless the truncated remainder is negative. |
| `TimerQueue.RemainingExact` | timer_queue.c:234-240 | The remaining time is normalised, equals head minus now, and is non-negative exactly if the head is not past. |
| `Neighbours.HeartBeat.ProcessHb` | heart_beat.c:242-303 | A heeded heartbeat, next to the primary or the secondary address, resets the counter and the present mask of its entry, whose initial mask stays, or adds an entry with both masks of the heartbeat; others change nothing. A daemon without secondary address looks for one next to any sender none of whose addresses is near. |
| `Neighbours.HeartBeat.CheckNeighbors` | heart_beat.c:432-457 | The walk ages every entry once, unlinks exactly the timed-out ones and recovers the spaces of the successors among them. |
| `Neighbours.MasksAreHeard` | heart_beat.c:157-161 | Over any run of heartbeats and ticks, the initial mask of an entry is that of the heeded heartbeat that listed it, and its mask that of the last heeded one. |
| `HeartBeatSteps.GenuineBeatStep` | heart_beat.c:286-302 | In a network with exact ledgers, a genuine heartbeat does to the table what the heartbeat step of the allocation runs does: entries of children carry the masks of their places. |
| `HeartBeatSteps.TickSteps` | heart_beat.c:432-457 | A tick is a run of ageing steps of the allocation model, one for each entry that goes, and recovers the same spaces in the same order: for a child that left, exactly its initial space. |
| `HeartBeatSteps.ChildRegained` | heart_beat.c:449-456 | After any run in which a child's heartbeats told its own initial mask, its entry stands for exactly its initial space, and the tick that unlinks it recovers this space if it is a successor. |
| `Neighbours.ListedExactly` | heart_beat.c:440-456 | Over any run of heartbeats and ticks an address is listed exactly while fewer than N_INACT + 2 ticks have passed since its last heartbeat. |
| `Neighbours.GoneAtThirdTick` | heart_beat.c:440-456 | With N_INACT an entry goes at the third tick in a row without a heartbeat. |
| `Neighbours.RecoveredExactly` | heart_beat.c:451-453 | A removed neighbour at distance one is recovered exactly when it is a child split off before bit 48, or lies outside the initial space and all bits from the differing one to the end of its word are zero; with an initial mask of at most 16 only the former. |
| `Neighbours.RegainedExactly` | heart_beat.c:449-454 | A tick recovers each removed successor once and nothing else. |
| `Messages.Message.constructor` | nlmsg.c:80-88 | A zeroed header with its own length. |
| `Messages.Message.PutExtraHeader` | nlmsg.c:101-108 | Zeroed room behind the message, whose length grows by the aligned size. |
| `Messages.Message.Put` | attr.c:366-376 | Writes header and payload at the tail; the length field is truncated to 16 bits, and earlier bytes stay. |
| `Messages.Message.PutCheck` | attr.c:507-515 | Puts exactly if the aligned attribute fits and never touches a byte at or behind buflen. |
| `Messages.Message.NestStart` | attr.c:481-491 | Opens a nest at the tail with the nested flag. |
| `Messages.Message.NestEnd` | attr.c:674-678 | Writes the nest's length, truncated to 16 bits, and nothing else. |
| `Messages.Message.NestCancel` | attr.c:687-691 | Sets the length back and changes nothing else. |
| `Attributes.ForEach` | attr.c:257-295 | Iterating over any bytes stays in bounds, terminates, and visits the parsed attributes until the callback returns <= 0. |
| `Attributes.HoldsParse` | attr.c:94-111 | Bytes that hold attributes parse to exactly these, in order, whatever the padding. |
| `Attributes.ParseExactly` | attr.c:94-111 | Whatever the bytes are, parsing finds exactly the attributes at positions that follow each other at aligned distances, up to the first incomplete one. |
| `Attributes.VisitPrefix` | attr.c:264-267 | The visited attributes are a prefix, all of them exactly if the result is positive. |
| `Messages.PutExactly` | attr.c:370-375 | An attribute is read back as it was put if and only if header and payload are shorter than 65536 bytes. |
| `Messages.RunParses` | attr.c:257-268 | After headers and any sequence of puts and nests, ended or cancelled, parsing visits exactly the attributes of the message in order. |
| `Messages.NestsExact` | attr.c:674-691 | Cancelling restores the message byte for byte; the payload of an ended nest parses to what was put inside. |
| `Batches.Batch.Next` | nlmsg.c:471-483 | Commits the message exactly if it fits the limit, else marks the overflow. |
| `Batches.Batch.Reset` | nlmsg.c:493-506 | Starts the next batch with the message that did not fit; what is sent, pending and kept is what was put, in order, less a message written but not committed. |
| `Batches.Batch.Flush` | nlmsg.c:514-531 | What is sent is the concatenation of the pending messages and never exceeds the limit. |
| `Batches.MsgOkExactly` | nlmsg.c:151-156 | The check admits exactly the messages inside the buffer, except that it also admits every length of 2^31 or more. |
| `Batches.CbRun` | callback.c:51-94 | The loop checks source and sequence, calls the handler of each message and stops at the first result <= 0. |
| `Batches.DispatchPrefix` | callback.c:60-93 | The handled messages are a prefix; a positive result means the whole batch. |
| `Batches.ControlMessages` | callback.c:28-47 | Where the run comes to a control message without a handler: NOOP and OVERRUN go on with result 1, DONE ends it with 0, ERROR with 0 if it is complete and reports none and with -1 otherwise, other types are passed over. |
| `Batches.HandledMessages` | callback.c:73-89 | A message with a handler ends the run with the handler's result if that is at most zero, and goes on with it otherwise; without a handler it is passed over. |
| `Batches.UnexpectedStops` | callback.c:61-70 | The first message from another source or out of sequence ends the run with -1, unhandled. |
| `Batches.BatchDelivered` | callback.c:60-93 | A flushed batch is handled message by message, in order, until a handler says stop. |
| `Checksum.Checksum` | ping6.c:345-374 | The fold loop terminates and returns the complement of the one's-complement sum, without overflow up to 131074 bytes. |
| `Checksum.CksumSum` | utils.c:33-47 | Adds the words of a buffer, swapped or not, and for an odd length the last byte with the stale byte of the word before it, without overflow up to 131074 bytes. |
| `Checksum.TwoStepFold` | utils.c:100-104 | The two fixed steps give the complement of the one's-complement value of every 32-bit sum. |
| `Checksum.FoldStep` | ping6.c:366-368 | One turn of the fold keeps the one's-complement value and makes the sum smaller. |
| `Checksum.TwoSteps` | utils.c:101-102 | Two steps equal the complete fold for every 32-bit sum. |
| `Checksum.OnesDeferred` | ping6.c:366-368 | Carries may be added early or late (section 2 of RFC 1071). |
| `Checksum.ByteOrderIndependent` | utils.c:37-42 | Summing byte-swapped words gives the byte-swapped result (section 2 of RFC 1071). |
| `Checksum.ChecksumsAgree` | utils.c:33-46 | The two implementations agree on every even buffer, up to the byte order of the result. |
| `Checksum.OddExact` | utils.c:43-45 | For an odd length the result is that of the zero-padded buffer if and only if the stale byte is zero and, when words are swapped, so is the last byte. |

## Left out

- Sockets, interfaces, the kernel's routing table, netfilter queues, names and DNS: input and output; sends are values that methods return.
- The MAC-derived network numbers, sleeps, the detectors of fragmentation and merge, and `ping6` probing: they only decide when a run starts.
- Secondary addresses during fragmentation and merge runs: the code does not settle what should happen to them.
- Neighbours that differ in more than one word, which a daemon lists through its secondary address: ageing them out recovers nothing in the model, while `check_succesor` may not return for them.
- `AllocationRun.PanExact`: a newcomer that is granted a leaked space counts as a failure, because the next buddy leaks in its place.
- A second MAR2 from one `process_mar1`, which shifts `aux5` twice: the handler is modelled with it, the runs have at most one parent per daemon.
- Broken links during a flood, lost packets and two merges at once.
- `AddressWords.CheckSuccesor`: requires addresses that differ in at most one host word; with two differing words the C loop may never end, because its mask is not reset between words.
- `Batches.CbRun`: requires that no header reached has a length of 2^31 or more; there the C code leaves the buffer (see `Batches.MsgOkExactly`).
- `Batches.Batch.Reset`: the copy of an overlapping message is modelled as a copy of a snapshot.
- `NextHop.RouteInfo.SendToNextNeighbor`: models the selection, not the route entries that are installed and deleted around it.
- `Neighbours.HeartBeat.ProcessHb`: without the detectors of merge and fragmentation that it calls; the placeholder entry with the null address is the empty table.
- `Neighbours.HeartBeat.CheckNeighbors`: requires a table that lists no address twice; `process_san1` can list one twice (`Allocation.Daemon.ProcessSan1`), and then `delete_neighbor` unlinks the first of the two, which need not be the one that timed out.
- Heartbeats at a daemon that has no primary address yet: handled by `Neighbours.HeartBeat.ProcessHb`, while in the allocation runs every member has its address.
- `MergeResults.MergeMakesOneNetwork`: requires that no split above the receiver reaches mask 255, where the unsigned char wraps around; whether the addresses are distinct is left open if the proposed mask exceeds 62 and the root of the proposer's network itself has initial mask 64.
- `TimerQueue.TimerQueue.TimerAdd`: a missing handler, which ends the program, is a negative result.
- Typed attribute getters, `mnl_attr_validate` and the printing of messages: they would only add easy members.
- `check_n_s_l_table`, the list of secondary links in `process_sap1`, and the superseded `process_san` and `process_sap`: bookkeeping around the modelled steps.
- Allocation failure paths: `malloc` succeeds.
