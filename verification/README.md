# NodeLane Room: verified model

A Dafny model of the parts of NodeLane Room that are hard to get right, with proofs about them: the
Ethernet-over-IP data plane of a member's device, the control plane's rooms, addresses and leases,
the at-most-once command protocol between agent and control plane, node reconciliation, the network
stop, and the telemetry store. `dafny verify dfyconfig.toml` checks everything.

## How it is laid out

Each component has a specification on values, the code's own loops and updates as class methods
proved equal to it, independent statements of exactly what the specification does, and lemmas about
it over all inputs, runs or interleavings.

| component | values and methods | exactly, step by step | results over runs |
|---|---|---|---|
| shared | `Bytes`, `Sets`, `Times`, `Files` | | |
| packets | `Packet` | `PacketExact` | |
| fragments | `Fragments` | `FragmentExact` | `Reassembly`, `Retransmission` |
| carrier | `Replay`, `Carrier` | `WireExact` | `CarrierRuns`, `CarrierNet`, `CarrierExact`, `CarrierSessions` |
| policy | `Ports`, `Policy` | `InspectExact` | `PolicyRuns`, `PolicyExact` |
| device | `Device`, `FenceSteps` | `DeviceExact`, `FenceExact` | `Fence` |
| rooms, addresses, leases | `Rooms`, `Store` | `RoomEffects`, `RoomAdmission`, `RoomExact` | `RoomSafety`, `RoomRuns`, `RoomHistory`, `RoomRevisions`, `Quarantine`, `Aliasing`, `Snapshots` |
| commands | `Redaction`, `Receipts`, `Ledger`, `LedgerRuntime`, `Client` | `ReceiptExact`, `LedgerExact`, `ClientExact` | `ReceiptRuns`, `RoomReceipts`, `LedgerRuns` |
| nodes | `Nodes`, `NodeStore`, `NodeRuntime` | `NodeExact`, `NodeSteps` | `NodeHistory`, `NodeAgent`, `NodeOrders` |
| network stop | | | `NetworkStop`, `NetworkExact` |
| telemetry | `Telemetry` | `TelemetryExact` | `Telemetry` |

The modules of the third column, and those called exact in the fourth, say when each operation does what, in both
directions and without the functions that specify it: conditions on the tables, octets and clocks before, with every
time and bound as a number. A function and the method proved equal to it cannot drift together unnoticed.

Times are integer nanoseconds. A SQL table is a map, a transaction a function from tables to tables
or a failure that changes nothing. Identifiers are fresh values and hashes are injective, so a digest
or a fingerprint is the thing it is taken of. A save works, or fails before or after the new file is
in place. Clocks, random values, the outcome of a save and everything a peer does are parameters.

## What the code does not promise

Where a promise turned out to depend on something, the dependence is a lemma.

- A receipt keeps a request from running twice only while no transaction that began before a sweep
  takes its lock after it: `now()` is the start of the transaction, and the advisory lock is taken
  later. `ReceiptRuns.OvertakenSweepRunsTwice` is such a run, `ReceiptRuns.RunsAgainExactly` says
  exactly when it happens, and `ReceiptRuns.SweepsNotOvertaken` is the assumption elsewhere.
- A repeated request does not always get the first receipt again. The receipt is shown against the tables
  as they are by then: a member that has left, an owner that has closed the room or handed it on, a kicked
  user or the holder of a replaced invitation gets `operation_result_redacted` with no data, and a lease whose
  certificate is gone is refused. `Receipts.RetryReplays` and `ReceiptRuns.CopyIsShown` say exactly which,
  `RoomReceipts.LeaveRedacts`, `RoomReceipts.CloseRedacts`, `RoomReceipts.KickRedacts` and
  `RoomReceipts.CodeRedactedForGood` are families of such runs, and `RoomReceipts.CodesAreTheOwners` is what
  it is good for. At most one effect per request does not depend on it.
- A resent command is not always the same request: a command recorded without a room takes the room
  the agent is in when it is dispatched. `LedgerRuns.ResendMayMove` is such a run and
  `LedgerRuns.ResendsAreIdenticalExactly` says exactly when two dispatches differ. At most one of
  them takes effect all the same (`LedgerRuns.OneEffectPerCommand`).
- A submission that is refused because its save failed may still be sent after a restart: the save
  can fail when the file is in place already. `LedgerRuns.RefusedButRecorded` says exactly when.
- A version report that is due when a player creates or joins a room is sent with the context of the
  command and so under its idempotency key. The report is recorded first and the command meets a
  conflict: `LedgerRuns.ReportSpoilsCreate`. `LedgerRuns.ConflictExactly` and
  `LedgerRuns.NoReportNoStranger` say when a command is safe from this.
- A retransmitted fragment is meant to be ignored, but the bounds are checked first:
  `Retransmission.RetransmissionLosesReassembly` and, exactly, `Reassembly.DuplicateIgnoredIff`.
- Address quarantine outlives room leases only while a lease is signed at most a minute after every
  later transaction began (`Quarantine.Prompt`); a minute after its own begin is not enough, because
  a release that began earlier may take the lock later. `Aliasing.OvertakenReleaseAliases` is such a
  run, `Quarantine.AliasedOnlyByLateSigning` says that nothing else goes wrong in any run, and
  `Aliasing.NewcomerAliasesExactly` with `Aliasing.LeaverAliasedExactly` gives the exact clocks after any
  run. No order of the transaction clocks is assumed. Node addresses do not depend on any of this.
- At most one stop per restart order is not exactly one: when the save before it fails, the agent
  reports the order as failed without having stopped. `NodeAgent.UnsavedOrderIsNeverCarriedOut` is
  such a run; `NodeAgent.TakenExactly` and `NodeRuntime.ExecutedExactly` say exactly which listed orders
  are carried out under which outcomes of the saves, and `NodeAgent.SuccessMeansRestarted` is what holds of
  every order shown as succeeded.
- Assumed where a lemma says so: an agent's clock does not go back, nor do those that one device reads
  for the frames and packets it judges, one game revision has one list of ports, fewer than 2^64 frames are
  queued by one process, no invitation code is drawn twice, and a device is answered with a code only by the
  two requests that draw one.

## Model

| member | source | states |
|---|---|---|
| Packet.Checksum | internal/lan/packet.go:99-112 | the accumulate-and-fold loop terminates and gives the complement of the folded word sum whenever 32 bits do not overflow (inputs up to 131072 octets) |
| Packet.FoldKeepsResidue | internal/lan/packet.go:108-110 | a fold step strictly decreases and keeps the sum modulo 65535, zero staying apart from 65535 (RFC 1071) |
| Packet.ComplementMakesZero | internal/lan/packet.go:99-120 | inserting the checksum into a zero field of any header makes its own checksum zero |
| Packet.FollowExtensions | internal/lan/packet.go:64-89 | the loop over at most eight extension headers equals the recursive reading of the chain |
| Packet.Parse | internal/lan/packet.go:93-96 | every accepted packet is usable: a fragment has data, stays below 65536, and is a multiple of eight unless last |
| Packet.UdpPacket | internal/lan/packet.go:114-126 | the buffer built in place is octet for octet the datagram with a valid header checksum |
| Packet.Ipv4RoundTrip | internal/lan/packet.go:33-52 | parsing gives back every IPv4 packet and every fragment that fits its header, with a valid checksum, whatever padding follows |
| Packet.PaddingIgnored | internal/lan/packet.go:33-97 | in both versions, octets behind the length the header gives never change what the parser returns |
| Packet.UdpRoundTrip | internal/lan/packet.go:33-126 | parsing what udpPacket builds succeeds, unfragmented, with the same addresses and UDP payload, for all inputs that fit |
| Packet.UdpPayloadFields | internal/lan/packet.go:121-124 | the UDP header carries both ports and a length equal to the payload's |
| PacketExact.Parsed4Exactly | internal/lan/packet.go:33-52 | which octets are an IPv4 packet, and which one: header and length fit, the checksum holds, no reserved flag, no fragment that must not be one, fragments of the right size |
| PacketExact.Parsed6Exactly | internal/lan/packet.go:53-97 | which octets are an IPv6 packet, and which one: exactly those from which a chain of at most eight extension headers, each as long as it says, leads to it, the fragment header last |
| PacketExact.OtherVersions | internal/lan/packet.go:34-51 | octets of any other version are no packet |
| Fragments.FragmentTable.Expire | internal/lan/fragments.go:32-36 | exactly the sets at or past their expiry are deleted |
| Fragments.FragmentTable.Defragment | internal/lan/fragments.go:27-84 | the table and the verdict are those of the specification, and every table stays sound |
| Fragments.Judge | internal/lan/fragments.go:45-66 | bounds, overlap scan and last-fragment scan, in that order, decide a fragment's fate |
| Fragments.Copy | internal/lan/fragments.go:73-78 | the copy loop builds the reassembled payload and lists the frames in arrival order |
| Fragments.StoreKeepsSound | internal/lan/fragments.go:45-69 | parts stay pairwise disjoint and inside [0, total), with size their sum, at most 128 parts and 65535 octets |
| Fragments.DefragKeepsValid | internal/lan/fragments.go:27-84 | every call keeps at most 64 sets, each sound; nothing longer than a frame is passed on |
| Reassembly.NoGap | internal/lan/fragments.go:70-72 | disjoint parts inside [0, total) whose sizes add up to total leave no octet uncovered |
| Reassembly.AssembleAt | internal/lan/fragments.go:73-78 | each octet of the result is the octet of the one part that covers it |
| Reassembly.PassedIsTiled | internal/lan/fragments.go:27-84 | whatever is passed is tiled exactly by the stored fragments, and every octet comes from one of them |
| Reassembly.OthersKeep | internal/lan/fragments.go:27-84 | a fragment of another datagram leaves an unexpired set untouched |
| Reassembly.AnyOrderRebuilds | internal/lan/fragments.go:27-84 | any order of at most 128 fragments of one payload, mixed with other traffic and fed in time, is held until the last and then gives back the original octets |
| Reassembly.DuplicateIgnoredIff | internal/lan/fragments.go:46-54 | a repeated fragment is ignored exactly when a 129th part and a 65536th octet would still be allowed; otherwise its whole set is lost |
| Retransmission.FramesAreReal | internal/lan/packet.go:33-52 | the fragments of a datagram cut for a 1500-octet link are legal frames that the parser reads as its pieces |
| Retransmission.RetransmissionLosesReassembly | internal/lan/fragments.go:46-54 | for every datagram of 65121 to 65515 octets: its 45 fragments rebuild it, but with an exact copy of any of the first 44 before the last none of the 46 arrivals lets it through |
| FragmentExact.FateExactly | internal/lan/fragments.go:45-68 | a fragment is ignored exactly when it fits and has arrived as it is, stored exactly when it fits and brings only octets that have not arrived, none behind the end it gives; otherwise its set is dropped: 128 parts, 65535 octets |
| FragmentExact.DefragExactly | internal/lan/fragments.go:27-84 | the whole call: other sets stand exactly until they run out; a new set lives two seconds and needs one of 64 places; what becomes of the fragment's own set and what is answered, octet for octet when it is complete |
| Replay.RejectsExactly | internal/lan/device.go:376-381 | the slot test rejects a number exactly when it is 0, was accepted, or is at least 4096 below the highest |
| Replay.MarkStands | internal/lan/device.go:402-409 | marking keeps the slots standing for the set of accepted numbers; a slot is only overwritten by a larger congruent number |
| Carrier.ChunkRoundTrip | internal/lan/device.go:301-365 | a chunk survives encoding, UDP encapsulation, parsing and the header checks unchanged |
| WireExact.DecodedExactly | internal/lan/device.go:348-364 | a datagram is read as a chunk of this revision and room exactly when it is that chunk on the wire, field by field, between the carrier's ports |
| WireExact.QueuedExactly | internal/lan/device.go:301-321 | a frame is queued exactly while fewer than 4095 packets wait: it takes the next number, and its one or two packets go behind the others, each octet for octet its piece under number, epoch, revision and room |
| WireExact.SortedExactly | internal/lan/device.go:323-352 | what Write makes of every packet: whole and for this host while it is a present member; from a node or a present member a probe or a diagnostic, wrapped octet by octet; from a present member a chunk; nothing else |
| Carrier.Sender.Queue | internal/lan/device.go:301-321 | a frame joins the queue under the next number, its own until the 64-bit counter wraps, or nothing happens; the queue never exceeds 4096 |
| Carrier.Sender.AppendChunks | internal/lan/device.go:305-320 | the loop appends exactly the packets of the frame, in offset order |
| Carrier.Receiver.Take | internal/lan/device.go:365-419 | expiry, replay test, admission, assembly and window update give the specified tables and frame |
| CarrierRuns.TablesBounded | internal/lan/device.go:366-406 | in every run at most 128 frames are under assembly, and windows plus waiting window-less sessions are at most 255, though only a first chunk is checked against 128 |
| CarrierRuns.AlwaysFits | internal/lan/device.go:366-409 | in every run each window stands for what its session accepted, and expires two minutes after the last acceptance |
| CarrierRuns.ReplayTestIsExact | internal/lan/device.go:366-381 | in every run a number is rejected exactly when it is zero, was accepted in the window's life, or lies 4096 below the highest |
| CarrierRuns.AcceptedOnce | internal/lan/device.go:366-419 | one frame number of a session is accepted once until the policy revision changes or the session is idle for two minutes |
| CarrierRuns.AcceptedUnchanged | internal/lan/device.go:365-419 | when every arriving chunk was cut from a queued frame, an accepted frame is octet for octet the one queued under its peer, epoch and number |
| CarrierExact.CompletedExactly | internal/lan/device.go:365-419 | the other direction, over runs: of a queued frame of two chunks an arrival is answered with exactly that frame if and only if its number is not refused and the other chunk came first less than two seconds before and found room, whatever was repeated or mixed in, with no completed copy and no new members or revision since; a chunk two seconds or more later does not complete it |
| CarrierExact.SingleExactly | internal/lan/device.go:365-419 | a frame of one chunk is delivered by exactly the arrivals whose number is not refused and that find room |
| CarrierSessions.RefusedExactly | internal/lan/device.go:366-409 | over runs whose clocks do not go back: a number is refused exactly when it is zero, or its session had a delivery less than two minutes before and the number is among those delivered with no such silence between, or 4096 or more below one of them |
| CarrierNet.DeliveredWasQueued | internal/lan/device.go:301-419 | end to end: hosts that queue, restart and change revision, a network that loses, repeats and reorders their packets, a receiver that changes its policy; a completed frame is one that the named host queued for this receiver under the named epoch and number |
| CarrierNet.HeardByDevice | internal/lan/device.go:323-365 | the chunk and sender of that model are what Device.Write sorts a packet into |
| CarrierRuns.QueuedPacketDecodes | internal/lan/device.go:301-365 | the packets of a queued frame are exactly its chunks once parsed at the other end |
| CarrierRuns.ReceiveKeepsValid | internal/lan/device.go:365-419 | every arrival keeps the receiver's tables well formed |
| Ports.ValidateGamePorts | internal/model/lan.go:27-46 | validation succeeds exactly when all entries are well formed and no two intervals of a protocol meet |
| Ports.MarkRange | internal/model/lan.go:38-43 | marking clashes exactly when a port of the interval was marked before; 65535 included |
| Ports.FillTable | internal/lan/device.go:149-158 | the boolean table is true at a port exactly when an interval of that protocol covers it |
| Ports.CollideShares | internal/model/lan.go:38-43 | two well-formed entries collide exactly when they share a port of one protocol |
| Ports.ValidateLAN | internal/model/lan.go:10-23 | a game is accepted exactly when version, Ethernet types and ports are all in order |
| Policy.Gate.SweepFlows | internal/lan/policy.go:154-158 | exactly the flows that have run out are deleted |
| PolicyRuns.FlowsBounded | internal/lan/policy.go:153-168 | in every run at most 8192 flows and 64 fragment sets exist |
| PolicyRuns.AllFlowsTouch | internal/lan/policy.go:126-169 | in every run, if equal revisions mean equal ports, each flow has its source or destination port in the policy |
| PolicyRuns.AdmittedTouchesPolicy | internal/lan/policy.go:145-152 | so every admitted TCP or UDP frame does |
| PolicyRuns.PassedWereInspected | internal/lan/policy.go:32-143 | whatever passes, alone or together with earlier fragments, was inspected when it came, and came from the same member to the same target |
| PolicyRuns.AddressesAreDisjoint | internal/lan/policy.go:24-26 | the three addresses a member owns are owned by no member with another address and another MAC |
| InspectExact.TransportExactly | internal/lan/policy.go:32-130 | a frame gets as far as its TCP or UDP header exactly when link, addresses, groups and versions fit, read off its octets |
| InspectExact.AllowedExactly | internal/lan/policy.go:32-130 | any other frame passes exactly as ARP about the two members, a type of the game's, neighbour discovery or ICMP between them |
| InspectExact.NdOptionsExactly | internal/lan/policy.go:103-116 | the option loop accepts exactly the octets that are options one behind the other, of eight octets or a multiple, every link-layer address the sender's MAC |
| InspectExact.OwnsIs | internal/lan/policy.go:24-26 | the three addresses of a member, octet by octet |
| InspectExact.OrdinaryPasses | internal/lan/policy.go:32-130 | an ordinary datagram between two present members passes the inspection as it is |
| InspectExact.DiagnosticExactly | internal/lan/device.go:442-457 | which ICMP packets of this host leave for a node |
| InspectExact.AsksExactly | internal/lan/device.go:474-487 | which frames ask for a node |
| PolicyExact.PassedExactly | internal/lan/policy.go:131-169 | over every run whose frames' clocks do not go back: a TCP or UDP datagram, whole or completed by this frame, passes if and only if its header is sane and its destination port octets are in the port table of its protocol as last published, or it answers one: the last passed datagram between the same two members with the port octets exchanged came less than 30 seconds (UDP) or 300 seconds (TCP) before, found room, and no update has emptied the table since |
| PolicyExact.OrdinaryPassedExactly | internal/lan/policy.go:32-169 | so, from the octets of the frame, for a datagram that is sent in one |
| PolicyExact.ReplyFollows | internal/lan/policy.go:144-168 | a datagram that passes to a port that is not open answers one that passed, in octets, whatever the clocks do |
| PolicyExact.ClosedPortsNeverPass | internal/lan/policy.go:131-152 | a TCP or UDP datagram, whole or in fragments, with both port fields outside the policy never passes, and neither does the frame that completes it |
| PolicyExact.RoomExactly | internal/lan/policy.go:153-168 | an answer is let in later exactly when it has an entry already or fewer than 8192 are left by the sweep, which is due a second after the last |
| Device.Device.Update | internal/lan/device.go:118-207 | Update succeeds exactly for a plausible snapshot with good members and then shows its rules, members and nodes; a failure leaves everything untouched or nobody active; exactly a new revision or changed members empty the tables; every table stays within its bound |
| Device.Device.PublishGame | internal/lan/device.go:131-162 | generation, room, game, ports and types are replaced; exactly a new revision empties the tables |
| Device.Device.PublishMembers | internal/lan/device.go:163-206 | exactly changed members empty flows, fragments and frames, and a bad list leaves the device expired |
| Device.Device.ReadMembers | internal/lan/device.go:163-182 | the member loop accepts exactly pairwise distinct in-network addresses and MACs, and publishes those members |
| DeviceExact.UpdatedExactly | internal/lan/device.go:145-206 | what an update publishes, setting by setting: the switches, both port tables by the ranges that take a port in, the Ethernet types, the earlier end of lease and room, the last address of the network, every listed member with a MAC until 45 seconds after it was last seen, and the infrastructure addresses |
| DeviceExact.AcceptedExactly | internal/lan/device.go:122-182 | an update is accepted exactly for the lease's own open room with a valid game, when every member has a distinct address of the network, and a distinct MAC or none |
| DeviceExact.ChangedExactly | internal/lan/device.go:183-192 | flows and half-built frames are forgotten exactly when some address came, went or changed its MAC |
| DeviceExact.ContainsExactly | internal/lan/device.go:168 | the network's addresses are those from its masked address to its last |
| Device.Device.Write | internal/lan/device.go:323-419 | which frames one packet gives, which tables change, and under which generation they are permitted |
| Device.Device.SendTo | internal/lan/device.go:289-296 | for one other member: the frames the policy releases are queued for it in order, with fresh numbers, while there is room |
| Fence.EverythingIsFenced | internal/lan/device.go:118-440 | in every interleaving of the lock steps, whatever leaves the device was released by a decision of the policy itself, under the rules and between members of the publication in force at that very moment, or answers a diagnostic or this host's question for a node of that publication, or goes to a node or active member of it as a probe or diagnostic |
| Fence.AnswersNameNodes | internal/lan/device.go:474-495 | what reaches the TAP because this host asked for a node is an ARP reply to this host in the name of a node of the publication in force |
| Policy.NodeArpAnswers | internal/lan/device.go:474-495 | octet by octet, the answer is an ARP reply from the node that was asked for to this host |
| Device.Device.AnswerArp | internal/lan/device.go:474-495 | the request, copied and written over field by field, is that answer |
| Fence.LeavesInspected | internal/lan/policy.go:32-170 | such a frame passed the inspection under that publication itself, or is an earlier fragment of the datagram completed by a frame that did, from the same member and inspected when it came |
| Fence.StepKeeps | internal/lan/device.go:215-440 | a cleared delivery holds the write lock and belongs to the generation in force; every flight and queued packet carries the decision it rests on |
| FenceSteps.Lan.Update | internal/lan/device.go:118-207 | Update on the device is the lock steps start, publish, end of the fence |
| FenceSteps.Lan.Write | internal/lan/device.go:323-419 | Write on the device is the decision the fence makes about the completed frame or diagnostic; what it wants to inject is in flight afterwards |
| FenceSteps.Lan.Deliver | internal/lan/device.go:421-440 | deliver is acquire, check and inject; it writes exactly while the generation stands and the own membership is active |
| FenceSteps.Lan.Spread | internal/lan/device.go:258-297 | of a frame of an active host: a diagnostic to a node leaves as it is, a question for a node is answered under the generation read, any other frame is offered once to each other member, in any order |
| FenceSteps.Lan.SendProbe | internal/lan/device.go:242-252 | a probe leaves exactly while this host is active and its target is a node or an active member |
| FenceSteps.Lan.Fetch | internal/lan/device.go:224-238 | stale packets are dropped until one may go out, as steps of the fence |
| FenceSteps.InboundMatches | internal/lan/device.go:323-419 | rules, tables, counter and queue of the device stay those of the fence through Write |
| Fence.FailedUpdateSeals | internal/lan/device.go:121-207 | after an Update that fails past its checks nothing leaves the device until the next publication, whatever was in flight |
| FenceExact.CheckedExactly | internal/lan/device.go:421-440 | under the write lock a frame is cleared if and only if it was permitted under the generation in force and this host is a present member |
| FenceExact.FetchedExactly | internal/lan/device.go:224-238 | the next packet leaves if and only if it was cut under the generation in force and both ends are present members |
| FenceExact.PingedExactly | internal/lan/device.go:459-472 | which packets become diagnostic frames for this host, and the frame octet by octet |
| FenceExact.StraightExactly | internal/lan/device.go:242-262 | which probes and diagnostics of this host go out |
| FenceExact.Launches | internal/lan/device.go:411-419 | Write puts every frame that the policy releases in flight |
| FenceExact.UndisturbedArrives | internal/lan/device.go:421-440 | and in flight under the generation in force it reaches the TAP, if nothing is published in between and this host stays |
| Receipts.RetryReplays | internal/control/operations.go:47-186 | whatever has become of the tables since, a copy of a request that ran changes nothing and, in time, gets the first receipt exactly when nothing in it is looked at, or its lease stands and its device may see the room it is about; is refused exactly when its lease no longer stands; and gets the redaction otherwise |
| ReceiptExact.RunExactly | internal/control/operations.go:32-113 | the business function runs and is recorded exactly for a key of 16 to 128 characters, an authorized subject, a deadline at most an hour ahead, nothing standing under the key, and an outcome that would come again; what the tables and the row are then |
| ReceiptExact.ToldExactly | internal/control/operations.go:33-97 | what every other request is told: the first reason it is not admitted, a conflict with the other request that stands, what may be shown of the receipt, or the failure that is not recorded |
| ReceiptExact.ShownExactly | internal/control/operations.go:127-186 | a receipt is shown whole exactly when it need not be looked at, or its lease stands and its room is the device's to see; a code only to the owner while it lasts |
| ReceiptExact.AskedNow | internal/control/operations.go:211-230 | the same for asking without sending the request again |
| Receipts.ReceiptStore.Visible | internal/control/operations.go:127-186 | the queries of visibleReceipt, in order, decide between the whole receipt, its redaction and a refusal |
| Receipts.ReceiptStore.OperationReceipt | internal/control/operations.go:209-230 | asking for a result: not found, expired, or what may be shown of it |
| Receipts.MutateAlike | internal/control/operations.go:32-125 | two receipt tables that differ only in expired rows answer alike and stay alike |
| ReceiptRuns.FirstOutcomeOnly | internal/control/operations.go:62-186 | once a request has run, every equal request is refused, gets the first receipt, or gets its redaction, for ever |
| ReceiptRuns.CopyIsShown | internal/control/operations.go:62-71 | in any run, an authorized copy in time of the last request under its key gets exactly what may be shown of the first receipt at that moment, and changes nothing, unless its row was swept |
| ReceiptRuns.AskedExactly | internal/control/operations.go:211-230 | in any run, asking under a key is answered like a copy of the request that last ran under it, not found once swept and expired from the deadline on |
| RoomReceipts.CodesAreTheOwners | internal/control/operations.go:127-186 | over any run of requests, copies, sweeps and other transactions, a device that is told an invitation code, by the request that drew it or by a copy, owns that room at that moment, the room is open, and the code lets into it |
| RoomReceipts.AskedCodesAreTheOwners | internal/control/operations.go:211-230 | the same for a device that asks for the result under a key |
| RoomReceipts.LeasesAreTheMembers | internal/control/operations.go:141-149 | in any run of the room tables, a room lease is shown again only while its device is an active member of the room at the leased address |
| RoomReceipts.RedactedForGood | internal/control/operations.go:161-184 | once a room is closed, or a user is banned from it without owning it, no receipt about the room is ever shown to a device of that user again, in any run |
| RoomReceipts.CloseRedacts | internal/control/rooms.go:359-365 | so every copy of an owner's close gets the redaction |
| RoomReceipts.KickRedacts | internal/control/rooms.go:347-350 | and everything a kicked user asks again about the room, a heartbeat for one |
| RoomReceipts.LeaveRedacts | internal/control/rooms.go:330-331 | a member that is not the owner leaves: a copy of the request gets the redaction |
| RoomReceipts.CodeRedactedForGood | internal/control/operations.go:165-177 | an invitation that is replaced, revoked, swept or passed on is never shown again by the receipt that brought it, as long as no code is drawn twice |
| RoomReceipts.WritePasses | internal/control/rooms.go:351-357 | a room changes hands only to one of its active members, whatever the transaction |
| ReceiptRuns.RunsAtMostOnce | internal/control/operations.go:32-125 | over any run of retries, other requests and sweeps, of all requests with one subject, key and deadline, equal or not, at most one runs |
| ReceiptRuns.SweepingIsInvisible | internal/control/store.go:237 | with or without sweeps every request gets the same reply and the business state is the same, so the pruned table stands for one that forgets nothing |
| ReceiptRuns.RunsFirstExactly | internal/control/operations.go:47-62 | a request under a key nothing ran under runs exactly when it is timely |
| ReceiptRuns.RunsAgainExactly | internal/control/operations.go:47-62 | in any run, a request runs under a used key exactly when it is timely and the last request that ran under it has expired by this clock or was swept as expired |
| ReceiptRuns.ConflictExactly | internal/control/operations.go:62-66 | in any run, a timely request meets a conflict exactly when the last request that ran under its key still stands and differs in content or deadline |
| ReceiptRuns.RowUntilSwept | internal/control/operations.go:112 | whatever else arrives, the row of the last request that ran under a key stands exactly until swept past its deadline |
| ReceiptRuns.OvertakenSweepRunsTwice | internal/control/operations.go:47-62 | a concrete run in which a transaction that began before a sweep takes its lock after it runs a request twice |
| LedgerRuntime.Runtime.RunCommand | internal/agent/operations.go:87-185 | each branch takes exactly its steps of the protocol, in order: save, only then send, then settle; an unknown key is refused while another command is open, a known one with other content conflicts |
| LedgerRuntime.Runtime.Submit | internal/agent/operations.go:123-185 | a command is sent only after its save worked; a settlement that is not saved leaves it to be reconciled |
| LedgerRuntime.Runtime.Reconcile | internal/agent/operations.go:187-282 | each branch takes exactly its steps: ask, send again, follow up, save; which command is sent again is LedgerExact.ResentExactly |
| LedgerExact.ResentExactly | internal/agent/operations.go:187-228 | a known, unsettled, timely command of this device goes out again in a call if and only if its request is kept and either the server found nothing and no commit is known, or it is a logout and the device is revoked |
| LedgerExact.SentExactly | internal/agent/player.go:62-84 | what a dispatch sends under the key and deadline on record: a version report that is due before an admission, and the command on its path unless it still has no room |
| LedgerExact.PurgedExactly | internal/agent/operations.go:128-132 | exactly commands more than an hour past their deadline are dropped |
| LedgerExact.RecordedFirst | internal/agent/operations.go:136-150 | a command is first on record as being submitted, for an hour, with nothing known of it, in the room it names or the one selected |
| LedgerExact.SubmittedExactly | internal/agent/operations.go:123-185 | a new command goes out exactly once, after it was saved, and what is on record then |
| LedgerExact.ConcludedExactly | internal/agent/operations.go:187-282 | what a call leaves on record of a command to be reconciled, for every answer of the server |
| LedgerExact.LoadedExactly | internal/agent/operations.go:60-85 | what a restart makes of every stored command |
| LedgerExact.LostIsResent | internal/agent/operations.go:87-228 | a run: a submission is lost, the agent restarts, the server knows nothing, and the command goes out again with the key, the deadline and the content on record |
| LedgerRuntime.Runtime.LoadCommands | internal/agent/operations.go:60-85 | after a restart the memory is the file, with overdue commands unresolved and half-sent ones to reconcile |
| LedgerRuntime.Runtime.PurgeOld | internal/agent/operations.go:128-132 | exactly commands more than an hour past their deadline go |
| LedgerRuntime.Runtime.HasUnfinished | internal/agent/operations.go:123-127 | busy exactly when some command is submitting, pending or reconciling |
| LedgerRuns.SavedBeforeSent | internal/agent/operations.go:143-153 | in every run whatever goes out is on disk already, under the deadline and with the content recorded there |
| LedgerRuns.OneRecordPerDeadline | internal/agent/operations.go:87-282 | over submissions, resends, saves that fail before or after the rename, moves and crashes, everything sent under one key and deadline was recorded as one command, and a key returns only with a deadline more than two hours later |
| LedgerRuns.ResendsAreIdenticalExactly | internal/agent/player.go:62-77 | two commands sent under one key and deadline are identical exactly when the record names its room, or needs none, or both were dispatched from one room |
| LedgerRuns.ResendMayMove | internal/agent/player.go:62-77 | a concrete run in which one record is sent for two rooms |
| LedgerRuns.RefusedButRecorded | internal/platform/storage.go:41-49 | a submission refused because its save failed is resent after a restart exactly when the file had been renamed and the deadline has not passed |
| LedgerRuns.OneEffectPerCommand | internal/agent/operations.go:87-282 | agent ledger and receipt table together, from any rooms and with any reports: of all arrivals under one key with deadlines up to two hours apart at most one runs |
| LedgerRuns.ConflictExactly | internal/control/operations.go:62-66 | a timely, authorized command meets a conflict exactly when something else ran under its key |
| LedgerRuns.ReportSpoilsCreate | internal/agent/player.go:78-84 | a version report due at that moment goes out under the command's key and makes the command itself a conflict |
| LedgerRuns.NoReportNoStranger | internal/agent/player.go:78-84 | without a due report everything sent under a key is its command |
| Client.Api.Call | internal/client/api.go:157-234 | at most three copies of one request are sent, with exactly the retries of the specification |
| Client.LastAnswerDecides | internal/client/api.go:178-233 | a call succeeds exactly when the last request sent was accepted; all earlier answers were passing ones, at most one of them about the session |
| Client.EndedIsSilent | internal/client/api.go:187-193 | an ended identity is remembered and later calls send nothing |
| ClientExact.CalledExactly | internal/client/api.go:178-233 | exactly the attempts are made that every answer before led on to and that got a token; the last one made decides what the caller is told and what the session keeps |
| ClientExact.TokenExactly | internal/client/api.go:102-142 | a call ends with the token it had, the last one it logged in for, or none |
| NetworkStop.StopWins | internal/agent/interaction.go:15-59 | after a network-stop, in every interleaving, neither an in-flight step nor a retry that read its epoch before leaves the engine running or clears the pause |
| NetworkStop.SavedStopSurvivesCrashes | internal/agent/interaction.go:21 | a stop whose pause was saved holds across crashes too |
| NetworkStop.StepKeeps | internal/agent/network.go:174-178 | lock ownership and epochs: nobody reads an epoch of the future, and who holds which lock is as the code says |
| NetworkStop.StopEstablishes | internal/agent/network.go:372-380 | the engine stop inside network-stop leaves nobody about to apply, and every retry with an old epoch |
| NetworkExact.FlagsExactly | internal/agent/interaction.go:15-59 | pause, its file and the engine are what the events of the run say, across crashes |
| NetworkExact.StepGoesOn | internal/agent/network.go:174-178 | at its check a step goes on to apply if and only if no network-stop is in force and nothing has moved the epoch since it read it |
| NetworkExact.RetryGoesOn | internal/agent/interaction.go:41-45 | at its test a retry goes on if and only if nothing has moved the epoch since it read it |
| NetworkExact.EpochExactly | internal/agent/network.go:372-380 | the epoch stands still exactly while no event moves it |
| NetworkExact.RetryRestarts | internal/agent/interaction.go:15-59 | a run: a stop, a retry, and the next step brings the engine up |
| Rooms.LowestFree | internal/control/store.go:168-174 | the scan returns the lowest unused address, or there is none |
| Rooms.Latest | internal/control/nodes.go:209 | the latest expiry of a device's certificates, and no less than the quarantine |
| RoomSafety.RevokeSound | internal/control/store.go:184-202 | revoking any set of memberships keeps all room, seat, MAC, ban and certificate invariants |
| RoomSafety.AddMemberSound | internal/control/rooms.go:129-174 | admission keeps them: one place per user, capacity, open rooms, bans, seats |
| RoomSafety.AllocateKeeps | internal/control/store.go:138-175 | allocate gives its holder a live pool address and takes nobody's |
| RoomSafety.SeatIsPlace | internal/control/schema.sql:70-73 | two active members with one user, one device, one address, or one MAC in one room are the same member, so none of the four unique indexes ever fires |
| RoomSafety.KickSound | internal/control/rooms.go:350-352 | kicking ends the one membership before its user is banned, so no banned user is active |
| RoomSafety.ShutSound | internal/control/rooms.go:359-365 | closing leaves nobody in a closed room |
| RoomRuns.AlwaysSound | internal/control/rooms.go:81-531 | in every run, whatever the clocks: one active membership per user, no room over capacity, closed or against a ban, everyone on an own address, MACs distinct per room, every unrevoked room certificate naming an active member where it is |
| RoomRuns.WriteSound | internal/control/store.go:108-121 | each transaction keeps this, and a failed one changes nothing |
| RoomRuns.CutInSound | internal/control/users.go:87-132 | so does revoking a user's connections, rooms closed with their owner included |
| RoomRuns.SweepSound | internal/control/store.go:203-244 | so does the sweep |
| RoomRuns.MacSound | internal/control/rooms.go:265-286 | so does a heartbeat with a new MAC |
| RoomRuns.LeaseSound | internal/control/lease.go:20-97 | so does a room lease: the certificate names the active member at its address |
| RoomHistory.WriteLasts | internal/control/store.go:108-121 | no transaction takes back a ban, a closure, a revoked device, or the revocation of a certificate that has not expired |
| RoomHistory.OutForGood | internal/control/rooms.go:144-153 | a user once banned is never active in that room again, and a closed room never holds anyone again |
| RoomHistory.CutLeavesNothing | internal/control/users.go:85-132 | after a revocation none of the chosen memberships is active or has an unrevoked certificate, and with deletion no owned room is open |
| RoomHistory.SweepLeavesNothing | internal/control/store.go:203-236 | after a sweep nobody is active in an expired room or on an outdated client |
| RoomHistory.TakeoverLeavesNothing | internal/control/users.go:178-217 | after a takeover the user is active on the taking device or nowhere, so the next join is not refused for it |
| RoomEffects.AdmittedExactly | internal/control/rooms.go:129-174 | a device is admitted exactly when its user is active nowhere but where that should have ended, it is no node, the room is open, unexpired, not full, its game enabled and the user not banned, and an address is left |
| RoomAdmission.AddedExactly | internal/control/rooms.go:81-174 | the same read off the tables before the call, run-out memberships and resting addresses included |
| RoomAdmission.RefusedWith | internal/control/rooms.go:81-174 | and what everybody else is told, the first reason first |
| RoomAdmission.JoinedExactly | internal/control/rooms.go:232-256 | a join succeeds if and only if the code is known, its invitation ends after now, and the device plays in the room already or is admissible; otherwise the invitation is unusable, or the refusal says why |
| RoomAdmission.OwnerJoinedExactly | internal/control/player_invites.go:47-74 | the owner's return succeeds if and only if the room is open and its own, and it plays there already or names the revision and is admissible; which refusal else |
| RoomAdmission.CreatedExactly | internal/control/rooms.go:197-231 | a room is created if and only if the game is known, enabled and of the revision named, and the device is free to move, no node, and finds an address |
| RoomEffects.JoinLetsIn | internal/control/rooms.go:232-257 | whenever JoinedExactly lets a device in, it is in the room of the invitation: in its user's only place, at a live address nobody else has, the room within its capacity and renumbered, and only stale memberships ended |
| RoomEffects.OwnerIsLetIn | internal/control/player_invites.go:47-74 | so does the owner's return, on the revision it named |
| RoomEffects.CreateOpens | internal/control/rooms.go:197-231 | a new room holds its owner alone, has one invitation, four places and a day |
| RoomEffects.HeartbeatMarks | internal/control/rooms.go:258-296 | an active member is marked seen, its MAC is nobody else's in the room, the room is renumbered exactly when the MAC is new, nothing else changes |
| RoomEffects.LeaveEnds | internal/control/rooms.go:307-331 | after leaving the device is out, its certificates revoked and its address resting; leaving twice changes nothing; all others stay |
| RoomEffects.RoomActionDoes | internal/control/rooms.go:298-391 | an owner's action succeeded on the revision named, in an open room, and has its effect: out and banned, handed over, shut for everyone, one invitation, or none; other memberships stay |
| RoomEffects.AdminDoes | internal/control/rooms.go:493-531 | the administrator's close and kick have the same effects |
| RoomEffects.RevokeDeviceClears | internal/control/users.go:139-162 | the other device of the same registered user loses its grant, memberships and certificates, and no other device loses anything |
| RoomEffects.LogoutClears | internal/control/users.go:164-176 | so does the device itself, and it may not act again |
| RoomEffects.UserActionDoes | internal/control/users.go:296-346 | deleting or logging out an account or revoking a device leaves no grant, membership, certificate or, for deletion, open room of what it names; enabling and disabling touch the account alone |
| RoomEffects.EnrollSeats | internal/control/nodes.go:146-162 | a node's device gets a live pool address that no member has, and every other holder keeps its own |
| RoomExact.HeartbeatExactly | internal/control/rooms.go:258-296 | a heartbeat is accepted exactly from an active member of this version with no MAC, or a good one nobody else in the room has |
| RoomExact.LeftExactly | internal/control/rooms.go:298-318 | leaving succeeds exactly for a player who is or was a member, and ends the membership if the room was open to it |
| RoomExact.ActionExactly | internal/control/rooms.go:298-391 | an owner's action succeeds exactly on the second close, or in an open room on the revision named when its target, or its code, fits; who else is told what |
| RoomExact.AdminExactly | internal/control/rooms.go:493-531 | the administrator's exactly in a room that is not closed, on an active player |
| RoomExact.TakenOverExactly | internal/control/users.go:178-217 | a takeover succeeds exactly when the user is active on another device as named, and ends that membership alone |
| RoomExact.RevokedExactly | internal/control/users.go:139-176 | who may revoke a device and log out |
| RoomExact.AccountExactly | internal/control/users.go:296-346 | when an administrator's action on an account succeeds |
| RoomExact.AccountSpares | internal/control/users.go:87-132 | it touches nobody else's devices, rooms, invitations or memberships, except those in rooms that are deleted with their owner |
| RoomExact.LeasedExactly | internal/control/lease.go:18-97 | a lease is issued exactly to an active member with a minute or more left; the certificate, field by field: ten minutes, room, grant or CA, from half a minute ago, cut to the second |
| RoomExact.NodeLeasedExactly | internal/control/lease.go:52-97 | a node's likewise |
| RoomExact.EnrolledExactly | internal/control/nodes.go:130-162 | a node's device gets an address exactly when no table knows it and one is left |
| RoomExact.NodeRevokedExactly | internal/control/nodes.go:197-215 | exactly its certificates are revoked; its address rests eleven minutes and until the last of them has ended, and no longer |
| RoomExact.SweptMembers | internal/control/store.go:203-236 | exactly the memberships of devices to be updated and of rooms that are over end |
| RoomExact.SweptRooms | internal/control/store.go:208-235 | exactly the rooms that are over are closed |
| RoomExact.SweptAway | internal/control/store.go:237 | exactly ended invitations go, and certificates an hour after their end |
| RoomExact.SweptAddress | internal/control/store.go:184-237 | an address row goes exactly when its rest is over; a swept member's rests eleven minutes from now |
| RoomRevisions.WriteIsNumbered | internal/control/store.go:176-183 | each transaction that changes a room's owner, closure or roster raises its revision; none lowers one |
| RoomRevisions.SameNumberSameRoom | internal/control/rooms.go:81-531 | between any two moments of any run a room with the same revision is the same room with the same members, addresses and MACs |
| RoomRevisions.JoinedIsNumbered | internal/control/rooms.go:129-174 | so even for a join that first ends stale memberships in other rooms |
| RoomRevisions.CutIsNumbered | internal/control/users.go:96-129 | and for every room a revoked user is taken out of |
| Quarantine.AliasedOnlyByLateSigning | internal/control/lease.go:18-43 | in every run, in any lock order: two devices hold valid certificates for one address only if one lease was signed more than a minute after the transaction that released its address began |
| Quarantine.OneDevicePerAddress | internal/control/store.go:138-202 | so in every run, in any lock order, in which leases are signed at most a minute after each later transaction began, all certificates ever issued for an address that are still valid, revoked or not, belong to one device |
| Quarantine.KeptOrOutlived | internal/control/store.go:184-202 | every certificate on record has its address kept for its holder as long as it is valid, or some transaction released the address too early for it |
| Quarantine.WriteMoves | internal/control/store.go:108-121 | the step behind it: whatever a transaction does, an address changes hands only once its quarantine is over, and a release rests eleven minutes from the begin of its transaction, or past the last certificate of a node |
| Quarantine.RevokeMoves | internal/control/store.go:195-197 | a revoked member's address rests eleven minutes |
| Quarantine.RevokeNodeMoves | internal/control/nodes.go:197-215 | a retired node's address rests until its last certificate has expired, however late that was signed |
| Quarantine.OnlyRoomsOutlive | internal/control/nodes.go:197-215 | so only room leases can outlive the release of their address |
| Quarantine.ForgottenExpired | internal/control/store.go:237 | in any lock order, a certificate is forgotten only after it has expired |
| Aliasing.OvertakenReleaseAliases | internal/control/store.go:108-116 | a concrete run from empty tables: a lease signed within a minute of its own begin, a leave that began before it and took the lock after it, and a second device with a valid certificate for the same address |
| Aliasing.OutlivesExactly | internal/control/lease.go:18-43 | a full lease outlives the release of its address exactly when ten minutes from its signing, cut to the second, lie past the quarantine counted from the begin of the release |
| Aliasing.ReusedWhileValidExactly | internal/control/store.go:147-171 | another holder is then given the address exactly when it asks between the end of the quarantine and the end of the lease and nothing below is free |
| Aliasing.GivenExactly | internal/control/store.go:147-171 | a newcomer is given a used address exactly when it is overdue and every usable address below is taken |
| Aliasing.NewcomerAliasesExactly | internal/control/store.go:138-202 | after any run: the next newcomer, who creates a room at t and leases it at u, holds a certificate for the resting address of an issued one, both valid at u, exactly when the rest is over at t, the old certificate is not over at u, and every lower address is taken |
| Aliasing.SomeTimeExactly | internal/control/store.go:147-202 | such times exist exactly when the certificate outlives the rest and every lower address is taken when the rest ends |
| Aliasing.LeaverAliasedExactly | internal/control/lease.go:18-43 | in clocks, for a member that leaves after any run: exactly when ten minutes from the signing of its lease, cut to the second, lie past the quarantine of the leave, and every lower address is taken then |
| Quarantine.LeaseEnds | internal/control/lease.go:18-43 | a room lease ends with its room, with its device's grant and within ten minutes of signing, and only active members of open rooms get one |
| Quarantine.ExhaustedExactly | internal/control/store.go:138-175 | allocate fails exactly when the holder has nothing and every usable address is taken and not overdue |
| Quarantine.LowestIsTaken | internal/control/store.go:147-173 | a new address is the lowest usable one strictly between network and broadcast whose quarantine is over |
| RoomExact.AllocatedExactly | internal/control/store.go:138-175 | a holder keeps the address it has; any other gets the lowest usable one that is neither taken nor resting, and rows whose rest is over go |
| Snapshots.SnapshotsAccepted | internal/control/rooms.go:481-491 | in every run the member list of any room passes the address and MAC checks of Device.Update |
| Snapshots.StaleCertsAreBlocked | internal/control/rooms.go:464-478 | in any lock order, every certificate ever issued for a room that is still valid names an active member at its address or is on the blocklist |
| Snapshots.InsideContains | internal/control/store.go:54-60 | every address strictly inside the pool is in the client's network and is not its broadcast address |
| Store.Store.Allocate | internal/control/store.go:138-175 | reuse, clean-up and scan give the specified address and table |
| Store.Store.EndEach | internal/control/rooms.go:95-102 | revoking and bumping row by row, in any order, equals doing it for all rows at once |
| Store.Store.Available | internal/control/rooms.go:81-127 | stale memberships end, then a user active anywhere and a node device are refused |
| Store.Store.RevokeUserConnections | internal/control/users.go:87-132 | the nested loops equal cutting the user off everywhere at once |
| Store.Store.Takeover | internal/control/users.go:178-217 | the other devices' memberships end when room, device and revision are as seen |
| Store.Store.EnforceUpdates | internal/control/updates.go:317-352 | the loops over devices and rooms end exactly the outdated memberships, each with its revision |
| Store.Store.Sweep | internal/control/store.go:203-244 | outdated clients, expired rooms, then what has run out in the tables |
| Store.Store.RevokeNode | internal/control/nodes.go:197-215 | certificates revoked, and for good the binding and the address too |
| Store.Store.UserAction | internal/control/users.go:296-346 | an action on an account, step by step, has its effect and leaves the rest |
| Store.Store.LeaseRoom | internal/control/lease.go:18-97 | what a lease brings into the table is signed for an active member of an open room at its address, and ends with room, grant and ten minutes |
| Store.Store.Commit | internal/control/store.go:108-121 | any of the nineteen transactions on these tables commits as a whole or leaves no trace, and keeps them sound |
| Store.RevokeTwice | internal/control/store.go:184-202 | one revocation after another equals both at once |
| Store.CutMore | internal/control/users.go:96-129 | the order in which a user's rooms are visited does not matter |
| Store.EnforceMore | internal/control/updates.go:326-350 | a device's rows are the same whether the others have been ended or not |
| NodeHistory.WriteSound | internal/control/nodes.go:82-286 | configurations exactly for revisions 1 to the current one, one device per node and generation, current bindings of the present generation, reports naming stored configurations |
| NodeHistory.RevisionCounts | internal/control/nodes.go:82-286 | in every run a node's revision is the number of its changes, and revision r is stored with the configuration of the r-th change |
| NodeHistory.HistoryLasts | internal/control/nodes.go:82-404 | between any two moments: stored configurations never change, revisions and generations never decrease, ended operations stay as they ended, retired bindings stay retired, a revoked node does not change |
| NodeHistory.SuccessIsCovered | internal/control/nodes.go:303-341 | an open operation becomes succeeded only in a sync by the bound device of its generation whose report covers its revision with the stored configuration |
| NodeHistory.AcknowledgedIsGone | internal/control/nodes.go:333-375 | an operation whose end a sync reported, covered by the applied revision, is not handed out again |
| NodeHistory.SuccessIsReported | internal/control/nodes.go:333-341 | an operation succeeds in a sync only if a result says so |
| NodeHistory.SyncSound | internal/control/nodes.go:303-363 | a sync keeps the node tables sound |
| NodeExact.ActedExactly | internal/control/nodes.go:216-258 | an action succeeds exactly on a node that is there, not revoked, and in a state for it |
| NodeExact.ActedLeaves | internal/control/nodes.go:258-284 | what it leaves: state, generation, the next revision, its stored configuration, the operation for a day |
| NodeExact.ActedUnbinds | internal/control/nodes.go:205-263 | which bindings and keys it ends |
| NodeExact.UpdatedExactly | internal/control/nodes.go:168-196 | a configuration is changed exactly in the revision named, and stored under the next |
| NodeExact.KeyedExactly | internal/control/nodes.go:102-129 | a key is issued exactly for a pending node; it is good for half an hour, and the only one |
| NodeExact.EnrolledExactly | internal/control/nodes.go:130-167 | a device is enrolled exactly with a key that fits the node as it is |
| NodeExact.SyncedExactly | internal/control/nodes.go:287-332 | a sync is accepted exactly from the present device, of its generation, with a report and results that fit; what it leaves |
| NodeExact.OperationsExactly | internal/control/nodes.go:333-356 | what becomes of every operation at a sync: expired, superseded, ended as the first result that ends it says, running, or as before |
| NodeExact.PageExactly | internal/control/nodes.go:375-388 | what is handed out, and in which order |
| NodeExact.AllHandedOut | internal/control/nodes.go:375-388 | when no more than 64 are due, every one of them |
| NodeStore.NodeTables.Sync | internal/control/nodes.go:287-395 | checks, results one by one, settlement, report and page; all of it rolled back on failure |
| NodeStore.NodeTables.Take | internal/control/nodes.go:333-350 | the loop over results stops at one that cannot be reported |
| NodeStore.NodeTables.Page | internal/control/nodes.go:375-388 | the open, unexpired operations of the generation, the oldest first, at most 64 |
| NodeAgent.OneStopPerOrder | internal/agent/node.go:211-331 | over lost replies, requests repeated within a call, copies that arrive at any later time, failing saves, crashes and other transactions, one restart order stops the network at most once |
| NodeAgent.SuccessMeansRestarted | internal/agent/node.go:299-347 | in the same runs, a restart the control plane shows as succeeded was carried out by its own stop or by a crash after its checkpoint |
| NodeAgent.LateKeeps | internal/client/api.go:178-233 | a copy of any request ever sent, processed at any later time, closes operations at most and says nothing untrue |
| NodeAgent.TakenExactly | internal/agent/node.go:292-311 | a listed order is taken if and only if its generation is the agent's, it has not expired, its revision is at most the reply's and it is not in memory; a restart order that is taken was never executed, and is now exactly when its save works |
| NodeOrders.UpdateDoesNotHideTheOrder | internal/agent/node.go:292-311 | a run: a restart is ordered, then the configuration is updated, then the node syncs; it stops exactly once, whatever comes after |
| NodeOrders.OrderCompletes | internal/agent/node.go:211-352 | the run goes on: the configuration comes into force, the order is reported, the control plane has it as succeeded, and the agent forgets it |
| NodeSteps.CalledExactly | internal/agent/node.go:213-222 | a call reports at most 64 operations, none expired |
| NodeSteps.ReportedExactly | internal/agent/node.go:213-224 | and reports them, the generation and the applied configuration as they are |
| NodeSteps.ReceivedExactly | internal/agent/node.go:239-291 | a reply leaves exactly the operations whose end it does not acknowledge and that have not expired, and selects its configuration, or keeps the one in force |
| NodeSteps.TakenLeaves | internal/agent/node.go:299-311 | an order is on the file before it is carried out |
| NodeSteps.AppliedExactly | internal/agent/node.go:332-352 | once a configuration is in force every running operation it covers has succeeded, and no other |
| NodeSteps.FailedExactly | internal/agent/runtime.go:232-252 | after a round that failed exactly what was running has failed |
| NodeSteps.EndedExactly | internal/agent/node.go:312-316 | the end of a round saves what changed |
| NodeSteps.ListedExactly | internal/control/nodes.go:375-395 | a reply lists the orders as the control plane has them |
| NodeAgent.UnsavedOrderIsNeverCarriedOut | internal/agent/node.go:299-347 | a concrete run from enrollment in which the save fails: the order is closed as failed and nothing was ever stopped |
| NodeAgent.StepKeeps | internal/agent/node.go:211-352 | what was executed is remembered in memory and on disk or will never be listed again; locally succeeded means covered by what is applied |
| NodeAgent.AckedIsClosed | internal/agent/node.go:239-246 | what a reply acknowledges is closed at the control plane, so deleting it locally is safe |
| NodeAgent.CrashKeeps | internal/agent/node.go:301-305 | a crash falls back to the file without forgetting anything that was executed |
| NodeRuntime.Runtime.Prepare | internal/agent/node.go:233-316 | acknowledgements, expiries, orders with their checkpoints and the final save equal the protocol's steps |
| NodeRuntime.Runtime.Execute | internal/agent/node.go:292-311 | each order is skipped, or saved and only then executed; a failed save ends the round |
| NodeRuntime.Runtime.Acknowledge | internal/agent/node.go:241-246 | exactly the reported ends are deleted |
| NodeRuntime.Runtime.DropExpired | internal/agent/node.go:286-291 | exactly the expired operations are deleted |
| NodeRuntime.Runtime.Applied | internal/agent/node.go:332-352 | the selected configuration comes into force and running operations it covers succeed |
| NodeRuntime.ExecutedExactly | internal/agent/node.go:292-311 | over a whole round, whatever happens to its saves: a listed order stops the network if and only if it is a restart of the agent's generation, has not expired, its revision is at most the reply's, it is not in memory, and its save and those of all such orders before it succeed |
| NodeRuntime.PreparedKeeps | internal/agent/node.go:211-331 | the whole round keeps the protocol's invariant |
| Telemetry.Memory.Put | internal/control/telemetry.go:93-135 | prune, forget a moved device, then store, ignore or refuse; bytes are the sum of all sizes, at most 64 MiB, at most 1024 series, none empty |
| Telemetry.Memory.PruneLocked | internal/control/telemetry.go:73-90 | every series loses its stale prefix and the bytes of it; emptied series go |
| Telemetry.Memory.ForgetMoved | internal/control/telemetry.go:101-108 | a device that reports from elsewhere starts over, its bytes given back |
| Telemetry.PutSpec | internal/control/telemetry.go:93-135 | accounting, bounds and spacing hold after every put |
| Telemetry.PrefixIsFilter | internal/control/telemetry.go:76-79 | because samples are ordered, pruning the prefix equals filtering by age |
| Telemetry.AtMostEighteen | internal/control/telemetry.go:24-30 | in every run with an ordered clock and accepted sample times no series holds more than 18 samples |
| TelemetryExact.PutExactly | internal/control/telemetry.go:93-135 | the store is a table of sample lists: a report leaves exactly the samples of the last sixty seconds of the devices that stayed, with its own at the end if it is stored; it is stored, ignored or refused by the last sample left, four seconds, 64 MiB and 1024 devices |
| TelemetryExact.IdentityExactly | internal/control/telemetry.go:101-119 | a series belongs to the room and node it was first reported from; a device that moved starts over |
| TelemetryExact.SweptExactly | internal/control/telemetry.go:73-91 | the prune by itself keeps every young sample, and nothing else |
| Telemetry.SeriesAfter | internal/control/telemetry.go:73-135 | what a series holds after a step is what it had within the retention, and the new sample |
| Telemetry.TotalSplit | internal/control/telemetry.go:127-132 | the total of all sizes is one series' plus the others', so byte accounting is exact |

## Left out

- HTTP routing, JSON, SSE framing, cookies, rate limits, localisation: transport only; a handler is one transaction.
- PostgreSQL: maps and serialized transactions; the unique indexes are not modelled because the invariants imply that they never fire. A constraint that would abort a transaction appears as the failure Internal.
- Nebula, certificate signing, Ed25519, SHA-256, TLS: a certificate is the record of what it signs, digests are injective.
- TAP devices, Windows and systemd integration, installers, the desktop and web front ends, the CLI, packaging.
- GeoIP, Steam import, S3 sources, update downloads, OIDC.
- visibleReceipt decodes JSON; here the data of a receipt is a record of the fields it looks at. The server time and request id that a redaction keeps are not modelled.
- createNode's and updateNode's label checks (validNode), room names, enrollment key hashing: input syntax.
- The probe protocol itself: what is put into a probe and what is made of one that arrives. Short read buffers are not modelled.
- Replay windows: in the code one window object is updated in place through its map entry; here the map entry is replaced. Aliasing of windows is not captured.
- Fragment and frame buffers: sets and frames are values in a map that methods reassign; only the packet, port and probe buffers are arrays.
- Fence, NetworkStop, LedgerRuns and NodeAgent are state machines over the lock, save and message steps of the code; threads are not run, and a step is one critical section.
- The 64-bit generation counter of the device is unbounded; the frame sequence counter is modelled with its wrap-around.
- admin_events, room events other than the revision, last_seen of nodes, session rows: written, never read by what is proved.
- Room reasons: the reason text of an ended membership is not kept, so MemberEnded stands for all of them.
- updateRequired: the set of devices it requires to update is a parameter of the sweep.
- ApplyNodeConfig, nodeProbes, readInteraction, telemetry snapshots: reporting and configuration of one host.
- Device.Device.Update: a failure after the plausibility checks is not proved to restore the old policy, because the code does not; it leaves nobody active.
- ReceiptRuns.RunsAtMostOnce: does not claim that a rejection seen by the client means that nothing was committed, because checks run before a receipt is replayed.
- CarrierNet.DeliveredWasQueued: only packets that some host queued are on the network, because Nebula authenticates hosts; a process queues fewer than 2^64 frames and no host draws the same random epoch twice.
- LedgerRuntime.Runtime.Reconcile: whether the agent is still the same device afterwards, and whether the account could be read again, is one parameter.
- Quarantine.OneDevicePerAddress: speaks of devices, not of processes that share a device's key.
- NodeAgent.OneStopPerOrder: counts the stops of prepareNode, not those of expiry, errors or a local restart.
- Client.Api.Call: delays and the call's own timeout are one parameter, whether there was time for another attempt.
