# quic-lab: a verified model of the Go components

This project models the Go half of quic-lab, the tunnel lab with its QUIC and TCP gateways,
migrating client, multi-profile router, traffic captures, user administration and AmneziaWG
provisioning, and proves what its protocols and formats keep over whole runs.

Each component has pure specification functions (a state, its events, and runs over them) and,
where the program updates things in place, classes and loops whose contracts equate the new state
with those functions. The theorems are about the functions and hold for every run.

| files | component |
|---|---|
| `Bytes`, `Modular`, `Limits`, `Text`, `Ipv4` | fixed-width integers, wrapping counters, shared limits, strings and decimal numbers, IPv4 prefixes |
| `Datagram`, `DatagramRuns`, `DatagramDelivery`, `DatagramFlow` | UDP over QUIC datagrams: fragmentation and reassembly |
| `Framing`, `FramingRuns`, `PacketRuns`, `FramedStream` | the framed stream with half-close, and datagrams framed inside it |
| `Paths`, `PathRuns`, `PathCalls`, `PathActive`, `PathClient` | the migrating client's sockets and its two standby paths |
| `Policy`, `Router`, `Admission` | routing rules, the fail-closed router, flow admission against stop |
| `InternetChecksum`, `SyntheticPacket`, `TcpTrace`, `CaptureSession`, `CapturedConn`, `CapturedFlows` | reconstructed packets and conversations in captures |
| `Pcapng`, `PcapConversion`, `AwgCapture` | pcap to pcapng conversion and the AmneziaWG capture |
| `Pool`, `Accounts`, `Revocation`, `IdentityStore` | addresses, users, saving, and closing of revoked sessions |
| `AwgWorker` | the worker that applies users to the device |
| `Traffic`, `AwgCounters` | the 600-second traffic window and the counters that feed it |
| `AwgConfig`, `AwgReading`, `AwgProfile`, `AwgLibrary` | the AmneziaWG profile: parser, exactly what it accepts, printer, round trip, and a library that meets its assumptions |

Choices made where the code leaves one:

- A clock reading, a random identifier or key, the outcome of a save, a dial, a probe or a device
  call is a parameter of the operation or a field of the event. Random identifiers and keys are
  required to differ from those in use, which is what their length is for.
- A lock-guarded region is one atomic step. Runs interleave such steps in every order.
- Base64, address, prefix and host:port texts are read by the platform library.
  `AwgConfig.Faithful` states the facts about it that are used.
- Two certificates with the same SHA-256 digest are taken to be the same certificate.
- Failures are modelled as failures. Which error text is returned is not.

Behaviours of the code that a reader might not expect, modelled as they are:

- The signed conversion of a 64-bit counter difference drops increments of 2^63 and more, so a
  user's traffic is the sum of the increments exactly below that bound (`AwgCounters.IncrementsAdded`).
- A datagram over a framed stream is two writes of the inner stream, and a half-close may come
  between them. An empty datagram is then received although its write failed
  (`PacketRuns.CutEmptyPacketArrives`).
- A captured connection looks its session up before it takes its own lock. A record that comes late
  for an earlier session makes the next one start the conversation over, so a capture holds one
  conversation exactly when no such record falls in between (`CapturedConn.RecordsMakeTrace`).
- The synthetic source of a captured connection repeats after 2,097,152,000 connections
  (`CapturedFlows.SameSource`).
- A session registered without a protocol is closed by every change of protocols, because an
  empty protocol name is never in a selection (`Revocation.Spared`).

## Model

| member | source | states |
|---|---|---|
| `Datagram.DecodeEncode` | internal/gateway/datagram.go:126-135 | a fragment header with its 64-bit flow, 32-bit number and 16-bit index and total is read back as written |
| `Datagram.AcceptKeepsSound` | internal/gateway/datagram.go:136-182 | any fragment at all leaves at most 8 assemblies, each with 1 <= count < total <= 66, count the filled pieces, size the sum of their lengths and at most 65507, and the assemblies balance with what was begun, completed, expired and oversize |
| `Datagram.StaleGoes` | internal/gateway/datagram.go:144-150 | any acceptable piece of a larger datagram leaves no assembly older than 500 ms in the table, counts each one that went, and leaves every young one of another number as it was |
| `Datagram.StaleNeverBlocks` | internal/gateway/datagram.go:144-160 | a table that holds only stale assemblies never refuses a first piece: they all go and the new one begins |
| `Datagram.FateExactly` | internal/gateway/datagram.go:136-182 | exactly which fragments are refused, begin an assembly, end one as too large, are kept, or deliver |
| `DatagramRuns.FragmentsAccepted` | internal/gateway/datagram.go:231-268 | every fragment of a write of any length 0..65507 fits one datagram and passes the receiver's checks |
| `DatagramRuns.JoinWhole` | internal/gateway/datagram.go:175-182 | when every place holds its own piece, concatenating the places gives back the datagram that was split |
| `DatagramRuns.AcceptPiece` | internal/gateway/datagram.go:126-182 | a fragment of a write keeps every assembly a partial copy of one write, and whatever it completes is that write |
| `DatagramRuns.StepKeeps` | internal/gateway/datagram.go:65-84 | writes, registrations, closings and any duplicated, delayed or reordered arrival keep the link invariant on every flow |
| `DatagramRuns.ReassemblySafety` | internal/gateway/datagram.go:126-190 | in every run each datagram delivered on a flow is byte for byte one the peer wrote on that flow |
| `DatagramRuns.ReusedNumberMixes` | internal/gateway/datagram.go:245-256 | the bound of 2^32 writes is exact: with one more there is a run from the start in which a datagram is delivered that nobody wrote |
| `DatagramDelivery.Accounting` | internal/gateway/datagram.go:136-182 | over any arrivals assemblies begun = completed + expired + oversize + pending |
| `DatagramDelivery.ArbitraryBytes` | internal/gateway/datagram.go:65-84 | for arbitrary received bytes the table stays sound and balanced and a delivery never exceeds the 65507-byte relay buffers |
| `DatagramDelivery.Collecting` | internal/gateway/datagram.go:136-182 | until the last distinct fragment the table holds exactly the pieces seen and nothing of the datagram is handed over |
| `DatagramDelivery.ReassemblyCompleteness` | internal/gateway/datagram.go:136-182 | fragments in any order, repeated and interleaved with other traffic, within 500 ms of the first and with fewer than 8 assemblies of the last 500 ms then, deliver the exact datagram at the arrival that completes the set and not before |
| `DatagramDelivery.LinkCompleteness` | internal/gateway/datagram.go:65-84 | the same on the whole link: on a flow that stays registered the datagram is delivered at the event that brings its last fragment, whatever other flows do |
| `DatagramFlow.Mux.Register` | internal/gateway/datagram.go:49-64 | a new identifier gets an empty flow, up to the limit and never twice |
| `DatagramFlow.Mux.Receive` | internal/gateway/datagram.go:65-84 | bytes of impossible length or for an unknown flow change nothing; others reach exactly their flow |
| `DatagramFlow.Flow.Accept` | internal/gateway/datagram.go:126-183 | table, queue and drop counter follow the specified outcome |
| `DatagramFlow.Flow.Reassemble` | internal/gateway/datagram.go:136-182 | the checked fragment expires, opens, fills or completes assemblies as specified |
| `DatagramFlow.Flow.ExpireParts` | internal/gateway/datagram.go:144-150 | the loop removes every assembly older than the lifetime, keeps every other, and counts each one removed |
| `DatagramFlow.JoinPieces` | internal/gateway/datagram.go:176-179 | the copying loop yields the concatenation of the pieces |
| `DatagramFlow.Flow.Deliver` | internal/gateway/datagram.go:184-190 | with 32 datagrams waiting the new one is dropped and counted, otherwise it is appended |
| `DatagramFlow.Flow.Read` | internal/gateway/datagram.go:191-230 | past its deadline nothing is taken; otherwise the oldest datagram is removed and copied whole into a relay buffer |
| `DatagramFlow.Flow.Write` | internal/gateway/datagram.go:231-268 | closed, late and oversize writes change nothing, in that order; an accepted one takes the next number and queues all its fragments in order |
| `DatagramFlow.Flow.QueueFragments` | internal/gateway/datagram.go:247-267 | the loop queues the fragments of the specified split, as far as there is room |
| `DatagramFlow.Flow.Close` | internal/gateway/datagram.go:269-280 | the flow leaves the table once, others stay |
| `Framing.NextOfFrame` | internal/gateway/wire.go:134-158 | a frame followed by anything is read back with exactly its payload |
| `Framing.DecodeAppend` | internal/gateway/wire.go:134-158 | decoding a stream extended by a frame appends that frame's payload |
| `Framing.DecodeChunked` | internal/gateway/wire.go:68-87 | a write in chunks decodes to the bytes written, with no empty chunk among them |
| `FramingRuns.StepRefines` | internal/gateway/wire.go:46-96 | every event of the framed connection is a step of a byte stream with half-close |
| `FramingRuns.ByteStream` | internal/gateway/wire.go:46-96 | in every run what is read is a prefix of what is written, the end is seen only when closed and fully read, and no chunk exceeds the reader's limit |
| `FramingRuns.ByteStreamProgress` | internal/gateway/wire.go:46-66 | once everything sent has arrived a read returns data while any is left and the end exactly when the closed stream is used up |
| `PacketRuns.PullReady` | internal/gateway/wire.go:146-158 | one inner read for a packet, whatever part of it was held before, brings the next bytes, completes exactly the packet in front, waits, or fails at the end or at an excessive length |
| `PacketRuns.ReadOnReady` | internal/gateway/udp_stream.go:19-27 | reading on from any held part completes a packet if and only if a whole frame of permitted length is there, and it is that frame's payload; otherwise all there is is held, or the read fails at the end or at the length |
| `PacketRuns.ActKeeps` | internal/gateway/udp_stream.go:19-38 | either inner write of a packet, a half-close before, between or after them, deliveries and each single inner read keep the queue relation |
| `PacketRuns.ScheduleShows` | internal/gateway/udp_stream.go:28-38 | read off the schedule alone: a write is under way between its two inner writes, and it is cut if and only if a half-close fell between them |
| `PacketRuns.PacketQueue` | internal/gateway/udp_stream.go:19-38 | in every interleaving packets received are a prefix of packets written with boundaries kept, except one empty packet whose write is under way or was cut by a half-close between its inner writes; a read returns only the next packet, and once all arrived it returns it, or fails if the stream is half-closed, or waits |
| `PacketRuns.CutEmptyPacketArrives` | internal/gateway/udp_stream.go:28-38 | the exception is real: an empty packet whose write fails at a half-close between its two inner writes is received |
| `FramedStream.RawStream.WritePacket` | internal/gateway/wire.go:134-145 | appends one frame, or refuses an oversize payload and appends nothing |
| `FramedStream.RawStream.ReadPacket` | internal/gateway/wire.go:146-158 | consumes one whole frame or reports why not |
| `FramedStream.MStream.Read` | internal/gateway/wire.go:46-66 | reader state, raw position and bytes copied follow the specified read |
| `FramedStream.MStream.Write` | internal/gateway/wire.go:68-87 | the frames sent are the chunked form of exactly the bytes reported as written, whether all, up to a raw failure, or none after a half-close |
| `FramedStream.MStream.CloseWrite` | internal/gateway/wire.go:88-96 | the end mark is sent once, however often it is called |
| `FramedStream.PacketStream.Write` | internal/gateway/udp_stream.go:28-38 | length and body are two inner writes; a half-close between them leaves the length alone, a failing raw stream leaves the length and the first chunks, and either fails the write |
| `FramedStream.PacketStream.Read` | internal/gateway/udp_stream.go:19-27 | the loop of inner reads is the specified reading, held bytes and failures included; a packet is copied as far as the buffer goes |
| `Paths.PrepareConserves` | mobile/client.go:260-303 | preparing, successful or failed at any point, keeps every socket in exactly one role and the active one in place |
| `Paths.MigrateConserves` | mobile/client.go:369-400 | migrating, successful or not, keeps every socket in exactly one role; a failure leaves the active one in place |
| `Paths.StopConserves` | mobile/client.go:412-430 | after stopping every socket opened is closed once |
| `Paths.NextConserves` | mobile/client.go:254-430 | every call of the client keeps the conservation of sockets |
| `PathRuns.SocketConservation` | mobile/client.go:159-197 | in every reachable state each socket has one role, at most three are in use, and stopping closes each exactly once |
| `PathRuns.NextCache` | mobile/client.go:260-303 | every call keeps the standby entries equal to what the history of paths leaves, and the history proper: paths are added for keys without one, switches are probed, and a path goes by migration only right after the switch to its key |
| `PathRuns.StandbyCache` | mobile/client.go:260-333 | prepared and parked always have different keys and the history accounts for exactly them |
| `PathCalls.NextExplained` | mobile/client.go:260-333 | every event of a call is one this call may cause: a path is given up only by invalidating its key, by the switch to it that this call issued just before, by preparing another key, or by stopping; no failed probe, of a preparation or a migration, gives one up |
| `PathRuns.GivenUpBetween` | mobile/client.go:267-300 | between two paths added for one key the first was given up |
| `PathCalls.PathsAreSpent` | mobile/client.go:267-300 | from any reachable client, calls that do not invalidate a key, do not stop the client and name one other key at most add at most one path for the key plus one for each switch to it that was issued, and one less if its path is kept at first, whatever sockets, probes and switches do and however often migrations to the key fail |
| `PathCalls.OnePathPerKey` | mobile/client.go:293-300 | until a switch to it is issued a key costs at most one path, retried prepares and migrations with failing probes included |
| `PathCalls.SwitchesAreProbed` | mobile/client.go:378-389 | every switch a call issues is a migration's, on the standby path of the very key it asked for, whose latest probe succeeded in that call or under 3 s before it began |
| `PathActive.MigrationMoves` | mobile/client.go:369-400 | a migration that reports success issued its switch on the standby path of the key asked for, that path's socket is the active one now and the old one is being retired; one that fails leaves the active socket alone |
| `PathActive.ActiveIsLast` | mobile/client.go:385-397 | after a start the active socket is the one it opened or, once migrations completed, the one the last of them moved to, through any calls until the stop |
| `PathActive.Successes` | mobile/client.go:260-303 | exactly when a start, a preparation and a migration succeed, by what the network grants, the standby path kept and the age of its latest good probe |
| `PathActive.InvalidateForgets` | mobile/client.go:324-333 | after invalidating a key no standby path has it, its socket is being retired, and the other standby path and the active socket stay |
| `PathClient.Migrator.Start` | mobile/client.go:159-197 | opening and dialling, with either failing, follow the specification |
| `PathClient.Migrator.Prepare` | mobile/client.go:260-303 | promotion, parking, adding and probing a path follow the specification |
| `PathClient.Migrator.InvalidatePath` | mobile/client.go:324-333 | only entries of the key are discarded |
| `PathClient.Migrator.MigrateTo` | mobile/client.go:369-400 | warming, switching and retiring the old socket follow the specification, for which `PathActive.MigrationMoves` says what becomes active |
| `PathClient.Migrator.Stop` | mobile/client.go:412-430 | every open socket is closed and retirements are awaited |
| `Ipv4.ContainsInterval` | internal/routing/policy.go:66-94 | a prefix holds exactly the interval from its base on, as many addresses as its size |
| `Ipv4.MaskedContains` | internal/routing/policy.go:55-60 | masking a prefix does not change which addresses it holds |
| `Ipv4.MaskedIsFirst` | internal/routing/policy.go:55-60 | masking gives the first address of the prefix, the same for exactly the ways to write that prefix |
| `Policy.Parse` | internal/routing/policy.go:23-65 | a rule list is accepted exactly when valid, and what is kept are its rules with masked IPv4 prefixes |
| `Policy.RefusedExactly` | internal/routing/policy.go:23-65 | exactly why a rule list is refused: none or over 32 rules, a rule wrong on its own, or two of one name |
| `Policy.KeptSaysTheSame` | internal/routing/policy.go:50-60 | a kept rule with masked subnets has the verdict of the rule as written |
| `Policy.Choose` | internal/routing/policy.go:66-94 | the decision is the first matching rule's, blocked when ownership is unknown at an application rule |
| `Policy.FirstMatchIs` | internal/routing/policy.go:66-94 | the rules leave exactly one decision for a flow, the one a scan finds |
| `Policy.DirectOnlyUnmatched` | internal/routing/policy.go:66-94 | the direct decision means that no rule matches |
| `Policy.SingleRuleMeans` | internal/routing/policy.go:66-94 | what a rule of each mode does alone: the rules for some applications and for all but the same ones split the known owners between them, both refuse unknown ones, and a subnet rule takes exactly the addresses of its blocks |
| `Router.ApplyKeeps` | mobile/multiple.go:87-165 | every operation keeps the table of handlers consistent with its stopped handlers |
| `Router.FailClosed` | mobile/multiple.go:166-191 | in every run a flow gets only the installed, enabled, running handler of its own profile or none; direct only off port 53 and unmatched; the direct handler stays until close |
| `Router.SelectionDetermined` | mobile/multiple.go:166-191 | rules and table leave exactly one answer for a flow |
| `Router.UnknownOwnerBlocked` | mobile/multiple.go:166-191 | a flow of unknown owner that reaches an application rule gets no handler |
| `Router.StaleDetachIgnored` | mobile/multiple.go:145-165 | after any run an installed gateway keeps its very handler, running and granted, through any operations but replacing, disabling, removing or detaching that gateway or closing; stale detachments are among them |
| `Router.GrantedByHistory` | mobile/multiple.go:87-165 | by the list of operations alone: a profile's flows get a handler exactly when the operations gave it a gateway and did not take it away by disabling, removing, detaching that gateway or closing, and then one that runs and forwards to that gateway |
| `Router.DisabledGetsNothing` | mobile/multiple.go:115-139 | once a profile is disabled no flow for it gets a handler until it is enabled again, gateways set meanwhile included |
| `Router.EnabledInstallsAgain` | mobile/multiple.go:87-139 | after enabling a profile on an open router, setting its gateway installs a running handler that its flows get |
| `Router.ClosedGetsNothing` | mobile/multiple.go:204-218 | after closing no flow gets anything, whatever is done later |
| `Router.NoHandlerLeaks` | mobile/multiple.go:63-76 | every handler ever made is installed or has been stopped and never both, so each one replaced, disabled, removed, detached or closed is stopped |
| `Router.MultiRouter.SetGateway` | mobile/multiple.go:87-113 | installs a new handler and stops the one it replaces, or refuses |
| `Router.MultiRouter.SetProfileEnabled` | mobile/multiple.go:117-139 | disabling marks, removes and stops, enabling only clears the mark, as specified; `Router.DisabledGetsNothing` says what that means for flows |
| `Router.MultiRouter.RemoveGateway` | mobile/multiple.go:142-165 | removes and stops the profile's handler, never the direct one |
| `Router.MultiRouter.DetachGateway` | mobile/multiple.go:145-165 | removes the handler only if it still is that gateway's |
| `Router.MultiRouter.Close` | mobile/multiple.go:204-218 | every handler is stopped and nothing is selected again |
| `Router.MultiRouter.SelectFlow` | mobile/multiple.go:166-191 | selects the handler the rules and the table allow |
| `Router.NewMultiRouter` | mobile/multiple.go:40-62 | a router exists exactly for a valid rule list that names the DNS profile |
| `Admission.NextKeeps` | mobile/gateway_tun.go:117-135 | every step keeps slots equal to running workers and the group equal to all workers |
| `Admission.StopIsFinal` | mobile/multiple.go:63-76 | for every interleaving running workers match held slots within the limit, and after a stop returned none runs and none is ever admitted |
| `Admission.GroupOnlyShrinks` | mobile/multiple.go:63-76 | once a stop began the wait group never grows |
| `Admission.AdmittedExactly` | mobile/gateway_tun.go:117-131 | a flow gets a worker exactly when no stop has begun and fewer than 128 workers run |
| `Admission.TunHandler.Admit` | mobile/gateway_tun.go:173-191 | the locked region admits or refuses as specified |
| `Admission.TunHandler.GiveBackSlot` | mobile/gateway_tun.go:132-135 | a finished worker frees its slot and stays in the wait group |
| `Admission.TunHandler.Done` | mobile/gateway_tun.go:132-135 | the worker leaves the wait group |
| `Admission.TunHandler.MarkClosed` | mobile/multiple.go:70-73 | the stop's locked region closes the handler to new flows |
| `InternetChecksum.AccumulatorFits` | internal/debugcapture/user.go:241-254 | for every permitted size the 32-bit accumulator does not overflow |
| `InternetChecksum.FoldResidue` | internal/debugcapture/user.go:250-252 | folding the carries keeps the sum modulo 65535 |
| `InternetChecksum.FieldVerifies` | internal/debugcapture/user.go:241-254 | writing the checksum into a zeroed field makes the whole sum to zero, also in odd lengths and with 65535 for a UDP zero |
| `InternetChecksum.Sum` | internal/debugcapture/user.go:241-254 | the two loops compute the ones' complement checksum |
| `SyntheticPacket.PacketParts` | internal/debugcapture/user.go:271-308 | addresses, protocol and segment sit at their offsets in the packet |
| `SyntheticPacket.ChecksumsVerify` | internal/debugcapture/user.go:255-308 | recomputing the checksum of any written packet gives zero over its header and over its own pseudo-header and segment |
| `SyntheticPacket.HeaderReadable` | internal/debugcapture/user.go:271-280 | read at the offsets of section 3.1 of RFC 791 the header gives version 4, five words, the packet's own length, no fragmentation, a time to live of 64 and the protocol |
| `SyntheticPacket.UdpReadable` | internal/debugcapture/user.go:281-306 | read at the offsets of RFC 768 a UDP packet gives its ports, its length, a checksum that is present and its data |
| `SyntheticPacket.Build` | internal/debugcapture/user.go:255-308 | the buffer ends up as the specified packet; data too long gives none |
| `TcpTrace.RecordAccepted` | internal/debugcapture/user.go:222-239 | a record of any length extends the accepted conversation by exactly its bytes, with numbers modulo 2^32 |
| `TcpTrace.SegmentSizes` | internal/debugcapture/user.go:226-239 | a record is cut into pieces of 1400 bytes, only the last shorter, each followed by the other side's acknowledgement |
| `TcpTrace.ValidConversation` | internal/debugcapture/user.go:202-240 | an observer following sections 3.4 and 3.5 of RFC 9293 accepts the whole trace and has heard exactly the recorded bytes of each side |
| `TcpTrace.CutConversation` | internal/debugcapture/capture.go:66-89 | a trace cut anywhere is still accepted and carries a prefix of each side's bytes |
| `CaptureSession.KeepsFirstOffers` | internal/debugcapture/capture.go:66-89 | in every run the kept blocks are the first offered, all of them while running, and never over 32 MiB |
| `CaptureSession.RunsExactly` | internal/debugcapture/capture.go:66-89 | a session runs exactly until it is ended from outside or the blocks offered exceed 32 MiB |
| `CaptureSession.EndsForReason` | internal/debugcapture/capture.go:66-89 | a session that no longer runs was ended by one event, an end from outside or the first block that did not fit, and keeps all blocks offered before it |
| `CaptureSession.KeptConversation` | internal/debugcapture/capture.go:66-89 | however connections interleave, the segments whose blocks are kept of one connection are a valid conversation with a prefix of its bytes |
| `CaptureSession.Session.Emit` | internal/debugcapture/capture.go:66-89 | a block is kept, or ends the session at the limit, or is refused after the end |
| `CaptureSession.Session.Stop` | internal/debugcapture/capture.go:103-114 | the session stops running and keeps what it has |
| `CaptureSession.Session.LiveBlocks` | internal/debugcapture/capture.go:392-402 | hands out a contiguous run, nothing younger than two seconds behind its last block while running, and reports the end only after everything |
| `CapturedConn.SegmentReadable` | internal/debugcapture/user.go:271-308 | read at the offsets of section 3.1 of RFC 9293 the packet gives back direction, numbers, header length, flags, window and data |
| `CapturedConn.PacketRead` | internal/debugcapture/user.go:255-308 | a packet is read as its segment for its own connection and as nothing for another |
| `CapturedConn.RecordsMakeTrace` | internal/debugcapture/user.go:202-240 | what a connection's records put into a session is its trace, one handshake and then every byte, if and only if no record for another session falls between them |
| `CapturedConn.Connection.EmitBody` | internal/debugcapture/user.go:255-310 | builds the packet and offers its block, nothing for data too long |
| `CapturedConn.Connection.RecordData` | internal/debugcapture/user.go:226-239 | the chunk loop offers the blocks of exactly the specified segments |
| `CapturedConn.Connection.Record` | internal/debugcapture/user.go:202-240 | state and session follow the specified record for TCP, each packet with its own instant; UDP offers one packet |
| `CapturedConn.KeptBytes` | internal/debugcapture/capture.go:66-89 | the bytes of a capture, cut anywhere and mixed with other packets, read back as pcapng: per connection a prefix of its trace, all that was offered while the capture runs |
| `CapturedFlows.SameSource` | internal/debugcapture/user.go:166-167 | two counter values give the same synthetic address and port if and only if they differ by a multiple of 2^24 * 125 |
| `CapturedFlows.SeparateExactly` | internal/debugcapture/user.go:154-168 | connections can be told apart if and only if none to one target are whole rounds of the counter apart and no two are directed at each other's synthetic sources |
| `CapturedFlows.FewAreDistinct` | internal/debugcapture/user.go:154-168 | fewer than 2,097,152,000 consecutive connections, none to 198.18.0.0/16, can all be told apart |
| `CapturedFlows.FlowsKept` | internal/debugcapture/user.go:202-240 | from the records of all connections to the bytes of the capture: read back, a connection is a valid conversation with a prefix of its recorded bytes, and all of them while the capture runs |
| `Pcapng.FirstOfBlock` | internal/debugcapture/pcapng.go:12-20 | a block followed by anything is read back: both lengths agree and are whole words |
| `Pcapng.ItemsOfSection` | internal/debugcapture/pcapng.go:21-31 | the first block pair reads as a section and one interface with the link type |
| `PcapConversion.Convert` | internal/debugcapture/pcapng.go:41-90 | the emitted blocks are the first accepted ones of the specified conversion, for any input |
| `PcapConversion.ConvertRecords` | internal/debugcapture/pcapng.go:67-89 | the record loop emits one block for each valid record in front |
| `PcapConversion.ConversionKeepsCapture` | internal/debugcapture/pcapng.go:41-90 | in either byte order the pcapng reads back as the same link type, instants, bytes and original lengths |
| `PcapConversion.LongestValidPrefix` | internal/debugcapture/pcapng.go:67-89 | for arbitrary input exactly the longest run of valid records in front is converted |
| `PcapConversion.HeaderInverse` | internal/debugcapture/pcapng.go:41-66 | only file headers of version 2.4 are understood, in their own byte order and with their own link type |
| `AwgCapture.BuildBlock` | internal/debugcapture/pcapng.go:12-20 | the buffer written in place is the specified block |
| `AwgCapture.FrameOfPacket` | internal/debugcapture/user.go:105-115 | the fixed offsets recover the recorded time and bytes and never reject a converted record |
| `AwgCapture.OpenedExactly` | internal/debugcapture/user.go:116-137 | a frame is opened behind the header of its link type, kept exactly if it is IPv4 from or to the user, and any other link type is an error |
| `AwgCapture.LinkOfSection` | internal/debugcapture/user.go:106-109 | the link type is found at byte 36 of the emitted section |
| `AwgCapture.ItemsOfAnnotated` | internal/debugcapture/user.go:75-92 | a packet block with a comment reads as its packet and time |
| `AwgCapture.AwgCaptureKeepsPackets` | internal/debugcapture/user.go:105-138 | from the file bytes in either byte order through conversion, link lookup, opening and filter: a reader finds exactly the user's IPv4 packets with their instants |
| `Pool.AssignableRange` | internal/awgserver/worker.go:59-62 | the worker's address check is the open range between network and broadcast without the server |
| `Pool.ServerRange` | internal/awgserver/config.go:33-65 | a server address is accepted exactly for a prefix of 16 to 29 bits and strictly between its first and last address |
| `Pool.AllocatedIs` | internal/admin/protocols.go:60-78 | the lowest free assignable address is given, and none exactly when all are taken |
| `Pool.Capacity` | internal/admin/protocols.go:67-77 | allocation fails if and only if the prefix's size less three addresses are assigned |
| `Pool.Allocate` | internal/admin/protocols.go:60-78 | the loop finds the specified address |
| `Accounts.ProvisionKeeps` | internal/admin/protocols.go:38-78 | a provisioned user has a valid selection and, where needed, a new or its old address |
| `Accounts.EditedKeeps` | internal/admin/store.go:163-242 | every edit keeps names, addresses and keys distinct and addresses assignable |
| `Accounts.StoreStaysConsistent` | internal/admin/store.go:163-293 | over every run with failing saves users stay consistent and memory equals disk but for connection metadata |
| `Accounts.AddressStable` | internal/admin/protocols.go:79-98 | an address stays with its user through every run without its deletion |
| `Accounts.EditDoes` | internal/admin/store.go:163-293 | what each edit does, field by field: a new user, a name, a selection with its disabled mark and a peer kept or newly given, a deletion, metadata; every other field and every other user stay |
| `Accounts.ApplyDoes` | internal/admin/protocols.go:79-98 | with a save that works the effect is in memory and on disk, with one that fails in neither, but for connection metadata |
| `Accounts.EditRefused` | internal/admin/protocols.go:38-98 | exactly when each edit is refused, a selection with AmneziaWG in particular if it is not set up or if the user has no address and the pool is full |
| `Accounts.SelectionMeans` | internal/admin/protocols.go:39-50 | a selection is valid exactly when it is some of the three protocols, at least one and each once |
| `Accounts.CredentialsStay` | internal/admin/store.go:218-242 | through every run that does not delete a user its certificate, key and expiry stay, and every certificate names its user and expires with it |
| `Revocation.OpenedIsSettled` | internal/admin/store.go:74-81 | a store just opened satisfies the invariant of sessions |
| `Revocation.NextKeeps` | internal/admin/store.go:272-337 | every step keeps each session finished, about to be closed, or listed and permitted |
| `Revocation.RevokedIsClosed` | internal/admin/protocols.go:79-151 | in every run of an opened store a session its user may not have is unregistered, closed or about to be; with no edit under way it is closed |
| `Revocation.ReturnedEditHasClosed` | internal/admin/store.go:272-293 | when a delete or change of protocols returns, every listed session it does not permit has been closed, whatever ran before and in between |
| `Revocation.EditCloses` | internal/admin/protocols.go:99-111 | by the edit's own arguments, exactly the sessions it sets out to close: all of a deleted or disabled user, those under a protocol left out or under none, and no other; only a deletion takes sessions off the list |
| `Revocation.ForbiddenIsOut` | internal/admin/protocols.go:79-141 | after a saved deletion, disabling or selection without the protocol, no session of the user under it is admitted until protocols are chosen again, and once the edit has returned each that was listed is closed |
| `Revocation.RegisteredExactly` | internal/admin/store.go:294-337 | exactly who is admitted, in terms of the certificate shown and the fields of the user it names |
| `Revocation.SessionsShowCertificates` | internal/admin/store.go:294-337 | every session on record was let in by an event of the run on the certificate kept for its owner then, still good at that moment |
| `IdentityStore.CheckSelection` | internal/admin/protocols.go:39-50 | the loop accepts one to three known, distinct protocols |
| `IdentityStore.ProvisionUser` | internal/admin/protocols.go:38-78 | selection, configuration, existing address and allocation as specified |
| `IdentityStore.Store.CreateUser` | internal/admin/store.go:163-216 | memory and disk follow the specified edit, certificate and key included, undone when the save fails |
| `IdentityStore.Store.RenameUser` | internal/admin/store.go:219-242 | memory and disk follow the specified edit, undone when the save fails |
| `IdentityStore.Store.ChooseProtocols` | internal/admin/protocols.go:79-111 | memory and disk follow the edit, for which `Accounts.EditDoes` says what it sets, and exactly the sessions not spared are closed after a successful save |
| `IdentityStore.Store.DeleteUser` | internal/admin/store.go:272-293 | the edit, and all the user's sessions are unlisted and closed after a successful save |
| `IdentityStore.Store.RegisterSession` | internal/admin/protocols.go:121-141 | a session is listed exactly when the certificate shown is the one kept for the user it names, who is enabled, unexpired and has the protocol |
| `IdentityStore.Store.UnregisterSession` | internal/admin/protocols.go:142-150 | only this session leaves the tables |
| `IdentityStore.Store.TrackConnection` | internal/admin/stats.go:121-129 | metadata is kept in memory even when the save fails |
| `AwgWorker.StoreNeverRejected` | internal/awgserver/worker.go:50-76 | the saved file of every run of edits with well-formed keys is accepted at any time |
| `AwgWorker.MatchesOne` | internal/awgserver/worker.go:86-94 | the enabled users determine the device's peers uniquely |
| `AwgWorker.MatchesServes` | internal/awgserver/config.go:163-165 | in the user's own fields: every peer belongs to a user not disabled, not expired and with AmneziaWG chosen, and every such user's peer is there with its own pre-shared key and address |
| `AwgWorker.TurnedAway` | internal/awgserver/worker.go:51-76 | in the user's own fields, exactly which files are rejected: an entitled user with an address outside the open range, the server's, or a key that does not decode, or two that share an address or a key |
| `AwgWorker.RevokedLeavesDevice` | internal/awgserver/worker.go:77-94 | from the admin's edit to the device: once a deletion, a disabling or a selection without AmneziaWG is saved, a device brought in line with the file does not have the user's key, through any further edits until protocols are chosen again |
| `AwgWorker.Wanted` | internal/awgserver/worker.go:51-76 | the loop builds exactly the enabled users' peers, or rejects exactly a bad or shared address, a garbled or a shared key |
| `AwgWorker.Worker.RemoveRevoked` | internal/awgserver/worker.go:77-85 | only revoked peers are removed, and table and device stay equal even on failure |
| `AwgWorker.Worker.SetChanged` | internal/awgserver/worker.go:86-93 | only differing peers are set, and table and device stay equal even on failure |
| `AwgWorker.Worker.Apply` | internal/awgserver/worker.go:29-95 | exact rejection condition; on success the device serves exactly the entitled users and no other set matches; no unchanged peer is touched; removals come first; table equals device whatever fails |
| `AwgWorker.Worker.Bring` | internal/awgserver/worker.go:77-93 | removals and then changes bring the device to the wanted peers, or as far as the first failing call |
| `Traffic.RingHolds` | internal/admin/stats.go:62-74 | each bucket is, for any window that ends now, the one second of its slot with all that was added in it, unless a clock that stepped back within the window lost it |
| `Traffic.RingIsWindow` | internal/admin/stats.go:77-94 | the ring gives the log's sums for all amounts, all spans up to 600 seconds and all later moments, modulo 2^64, if and only if every addition followed on its slot by an older second is overtaken by one 600 seconds newer |
| `Traffic.InOrderIsSafe` | internal/admin/stats.go:62-94 | additions in order of time meet that condition |
| `Traffic.UnsafeLoses` | internal/admin/stats.go:62-68 | where the condition fails a single byte is lost from the full window |
| `Traffic.DisorderLosesTraffic` | internal/admin/stats.go:62-68 | a clock that steps back by a whole round loses traffic |
| `Traffic.UserTraffic.Add` | internal/admin/stats.go:62-74 | the bucket of the second is reset when stale and gains the positive amounts |
| `Traffic.UserTraffic.Snapshot` | internal/admin/stats.go:77-94 | the loop sums the buckets inside the two windows |
| `AwgCounters.IncrementsAdded` | internal/admin/awg_stats.go:23-52 | from any state, the initial one included, what the statuses of one worker start add is the sum of positive increments if and only if none reaches 2^63 |
| `AwgCounters.HugeIncrementLost` | internal/admin/awg_stats.go:42-50 | from a fresh observer two readings 2^63 apart add less than their increment |
| `AwgCounters.GrowthAdded` | internal/admin/awg_stats.go:23-52 | growing counters add last less first, however many statuses were stale or skipped |
| `AwgCounters.WindowShowsIncrements` | internal/admin/awg_stats.go:23-52 | for any span up to 600 seconds and any later moment the sliding window shows what it had of the time before and the increments of the readings taken within the span, modulo 2^64 |
| `AwgCounters.FreshWindow` | internal/admin/stats.go:77-94 | for a user without earlier traffic, read at times that do not go back, the window shows exactly the increments of the readings taken within it |
| `AwgCounters.Observer.ObserveStatus` | internal/admin/awg_stats.go:23-52 | a status is ignored, restarts the counters, or is taken peer by peer as specified |
| `Text.DecimalShow` | internal/awg/config.go:150-157 | a printed number is parsed back |
| `Text.DecimalExactly` | internal/awg/config.go:150-157 | exactly the texts of digits are numbers, and leading zeros change nothing |
| `Text.SignedExactly` | internal/awg/config.go:111-123 | a sign counts, up to the ends of the 64-bit range |
| `Text.TrimExactly` | internal/awg/config.go:38 | trimming takes exactly the white space at both ends |
| `AwgConfig.FieldLine` | internal/awg/config.go:37-64 | a printed field is cut, trimmed and recognised as its key and value |
| `AwgConfig.LinesAreEntries` | internal/awg/config.go:37-159 | parsing the printed lines is acting on the entries they were printed from |
| `AwgConfig.Parse` | internal/awg/config.go:29-172 | the line loop computes the specified configuration or failure |
| `AwgReading.ParsedExactly` | internal/awg/config.go:29-172 | for every text, without the parser's running state: it is accepted exactly when it is within 32 KiB, every line is blank, a heading for the first time, or sets a key of its section for the first time to a value the key may have, and everything needed is given; and every field of the result is what its one line says or its default |
| `AwgReading.CommentsIgnored` | internal/awg/config.go:38 | what follows a comment sign does not matter |
| `AwgProfile.AllowedRead` | internal/awg/config.go:127-138 | the joined list of networks, split and trimmed, is the list, each masked |
| `AwgProfile.NumbersAct` | internal/awg/config.go:145-158 | the printed parameters all come back under their keys |
| `AwgProfile.EntriesAct` | internal/awgserver/config.go:135-137 | the parser gets through the printed entries exactly when keys are nonzero and the endpoint's host is no IPv6 address |
| `AwgProfile.ProfileRoundTrip` | internal/awgserver/config.go:135-137 | parsing the printed profile gives the same endpoint, address, DNS, MTU, keys, networks and parameters if and only if the text is within 32 KiB, no key is zero, and the host is no IPv6 address and has no leading blank |
| `AwgProfile.ParametersAgree` | internal/awg/config.go:174-193 | whenever the client can read its profile, its engine parameters equal the server's own text, letter for letter |
| `AwgProfile.ParametersAre` | internal/awgserver/config.go:132-134 | the server's parameter text spells the numbers it prints into profiles |
| `AwgProfile.BuildParameters` | internal/awg/config.go:177-181 | the loop writes the parameters that were read, in the fixed order |
| `AwgLibrary.ProfilesExist` | internal/awgserver/config.go:33-65 | the assumptions on the platform library and the checks on the configuration can be met together |

## Left out

- TLS, the encoding and signing of certificates, key generation, QUIC, smux, gVisor and the AmneziaWG engine: foreign libraries, present only as fresh values, ordered byte streams and calls that may fail.
- HTTP handlers, templates, scripts, QR codes and WebSocket plumbing: input and output.
- Android code, installers and firewall scripts: side effects on the platform.
- Timers, deadlines and blocking: a read that would wait is a step that cannot be taken yet; clocks are integers.
- The sender loop of the datagram connection: the network may lose any fragment, which covers it.
- Base64, hex, address, prefix and host:port texts: read through `AwgConfig.Library` under the facts `AwgConfig.Faithful` names.
- Session identifiers, tickets, uploads and TLS secrets of captures, listener slots, leases and probe throttling: simple one-use state.
- Creating the server's AmneziaWG identity: a run starts with the configuration in place or without one.
- The list of live connections, their gate on byte counts and the health probing of the worker: display only.
- Concurrent edits of the store's traffic table on deletion: `Traffic` and `AwgCounters` follow users that stay.
- DatagramFlow.Flow.Write: `room` says how many places the sender frees meanwhile, because that is timing.
- AwgProfile.ProfileRoundTrip: the health interval and interface name of the server configuration are not modelled, because the profile does not carry them.
