# libatbus-go: a verified model

libatbus-go is a message bus. Nodes form a tree of upstreams and downstreams, talk over
framed byte streams, forward messages hop by hop, and seal them under keys they negotiate
and renew while traffic is flowing. This project models that behaviour in Dafny and proves
what the design promises about it. `dafny verify dfyconfig.toml` checks all of it.

## How it is laid out

Code that changes state in place is a class or a method with a loop, and its contract ties
the new state to a function of the old one. What the design promises is then proved of those
functions, over every input, every run or every interleaving.

| files | what they model |
|---|---|
| `Vint`, `FrameCodec`, `WireFormat`, `FrameReader` | length codes, frames, what both look like on the wire, and the accumulating frame reader |
| `StreamReader`, `FrameVerdicts`, `Overrun`, `StreamWriter`, `StreamSends`, `WriterLaws`, `StreamChannel`, `Chunks` | the reading goroutine with its two buffers, which streams it bears and what it delivers after it decided to drop; the writing goroutine with merging and graceful disconnect, what becomes of the payloads sent, and how it catches up; and the two put together |
| `Forest`, `Topology`, `TopologyRegistry`, `RemovalTrail`, `RegistryRuns` | link structures, the registry's states as values, the registry itself, what exactly a removal does, and which updates are refused, with runs on new registries |
| `NodeRoutes`, `Routing`, `ForwardingLaws`, `Flights`, `TreeRouting`, `NodeViews`, `Fleet` | upstream slot and route table, choice of the next hop and the forwarding handlers, which hop and which error exactly, a message's travels in any world, and in a consistent tree, how registry and tables give a node its view of that tree, and all nodes together |
| `Negotiation`, `NegotiationLaws`, `Handshake`, `Registration`, `HandshakeLaws`, `Renegotiation`, `Overlap` | algorithm negotiation and what its order means, the connection context, what register messages and pings do with it, which confirmation and which error exactly, two ends with their channels, and overlapping handshakes |
| `StaticBlock`, `Padding`, `MessagePack`, `PackLaws`, `SampleToolbox` | temporary blocks and size classes, block padding, packing and unpacking, what is sealed, compressed or refused, and one choice of ciphers and encodings that keeps every law asked for |
| `BufferDeque`, `DequeLaws`, `BufferManager`, `BufferModes` | what a buffer manager is, at which ends it works, its list and ring modes, and the two side by side |
| `Binding`, `BindingLaws` | endpoints, connections and their mutually recursive resets, and what each operation does to whom |
| `Wrappers` | optional values |

Hashes, ciphers, compressors, curves, key derivation and the message encoding are function
parameters. Where a result needs a law of theirs (decryption inverts encryption, both ends
compute the same secret) the law is a named predicate in its `requires`, and the laws can be
met (`SampleToolbox.PlainIsLawful`, `Overlap.AdditiveDiffers`). Random draws and clocks are
parameters too. In the transition systems one handler call, or one access to
state shared between goroutines, is one step.

## What the model found

- A push or merge of size zero on an empty manager succeeds in the static mode and fails in
  the dynamic one; `BufferDeque.ModesAgree` and `BufferModes.DriveBoth` give the exact condition.
- Removing a peer goes on to its upstream by id. If that upstream was deregistered and its id
  taken over, the removal can deregister an unrelated peer that somebody asked for: five calls
  on a new registry do it (`RegistryRuns.RemovalTakesTaker`). It happens exactly if the
  trail of a removal, which can be followed in the state before it, comes to such a peer with
  all peers below it visited (`RemovalTrail.TakesUnrelatedIff`); a taker with other peers below
  it stays registered, but is no longer listed or marked as asked for (`RemovalTrail.TakerFate`).
  A removal always terminates. It also unlists a peer that stays registered because it has peers
  below it (`Topology.RemoveListed`), and does not touch the upstream links of the peers below
  it, although `types/atbus_topology.go:78-81` says so.
- An update compares ids on the way up from the new upstream, so a deregistered peer there with
  the target's id makes it refuse a move that would close no cycle: five calls on a new registry
  do it (`RegistryRuns.RefusedForNamesake`). That is exactly when it happens
  (`RegistryRuns.RefusedInVainIff`), and updates alone never get there (`RegistryRuns.UpdateRun`).
- An answer to a handshake is not checked against the latest request, and a refresh starts on a
  clock, whether or not the last one was answered (`message_handle/atbus_message_handler.go:366-382`).
  On an encrypted connection a refresh is safe exactly if no usable request is unanswered
  (`Overlap.RefreshSafeIff`), and the unsafe case is reached (`Overlap.OverlapHappens`).
- The ping handler changes the write key before it calls the ping callback and before it sends
  the pong (`message_handle/atbus_message_handler.go:1411-1457`). What the callback sends is
  readable exactly if the new key is the client's old one (`Overlap.CallbackReadableIff`).
- A register request carries a key exactly if the context already has a key pair
  (`Registration.RequestCarriesKeyIff`), and a ping only on an encrypted connection, so register
  messages and pings alone never give a new connection a key
  (`Registration.RegisteringNeverKeys`). The first handshake in `Renegotiation` is therefore
  started by the context's own operations.
- Crypto or compression info left in a message head is not cleared when the message is packed
  again without it (`MessagePack.ComesBackIff`).
- When the reader decides to drop a connection it goes on parsing what the head buffer holds, so
  what is delivered after that point can depend on the chunking. `Overrun.IndependentIff` says
  for which streams it does, and `Overrun.ReadInTwo` for which cuts one frame more is delivered.
- The accumulating frame reader never skips a damaged frame (`FrameReader.DamagedFrameBlocks`).
- The comment at `buffer/static_buffer_block.go:192` speaks of a spacing of 12.5%. Only the upper
  two of the four size classes to each power of two can be picked, so the classes are much
  further apart (`StaticBlock.MediumIsTable`), and only in four ranges is the waste at most an
  eighth of the request (`StaticBlock.MediumWaste`).

## Model

| member | source | states |
|---|---|---|
| Vint.ReadVint | buffer/buffer_algorithm.go:7-30 | the shift-and-accumulate loop computes `Decode`: the value and its length, or incomplete |
| Vint.WriteVint | buffer/buffer_algorithm.go:36-69 | succeeds exactly if the buffer has room for the encoded size, and then lays out the code and touches nothing else |
| Vint.VintEncodedSize | buffer/buffer_algorithm.go:72-83 | the counted size is the length of the code |
| Vint.DecodeEncode | buffer/buffer_algorithm.go:7-69 | for every 64-bit value reading inverts writing, whatever follows the code |
| Vint.PrefixIncomplete | buffer/buffer_algorithm.go:7-30 | every proper prefix of a code is reported incomplete |
| WireFormat.FormDecides | buffer/buffer_algorithm.go:36-69 | the code of a number is the one sequence of bytes with the top bit set in all but the last, no idle zero in front, and that number as its value to the base 128 |
| FrameCodec.PackFrame | channel/io_stream/frame_codec.go:61-84 | writes hash, length and payload if they fit and nothing otherwise |
| FrameCodec.UnpackWire | channel/io_stream/frame_codec.go:103-149 | a whole frame with any bytes behind it unpacks to its payload and consumes just itself, or reports the bad hash |
| FrameCodec.PrefixShort | channel/io_stream/frame_codec.go:103-149 | every proper prefix of a frame is reported as incomplete |
| WireFormat.FrameDecides | channel/io_stream/frame_codec.go:61-84 | a frame is the one sequence of bytes with four bytes of hash, lowest first, then such a code of the payload's length, then the payload |
| FrameReader.FrameReader.Write | channel/io_stream/frame_codec.go:193-210 | appends to the queue of unconsumed bytes, across growth and compaction |
| FrameReader.FrameReader.ReadFrame | channel/io_stream/frame_codec.go:215-239 | takes exactly one good frame off the front of the queue and leaves it alone otherwise |
| FrameReader.YieldsInOrder | channel/io_stream/frame_codec.go:193-239 | however writes and reads interleave and chunks are cut, the yielded payloads are a prefix of the packed ones and the rest is still held |
| FrameReader.WholeStream | channel/io_stream/frame_codec.go:193-239 | a packed stream written in any pieces and then drained comes out whole and in order |
| FrameReader.DamagedFrameBlocks | channel/io_stream/frame_codec.go:215-239 | after a damaged frame nothing more is ever yielded |
| StreamReader.Reader.ParseFrames | channel/io_stream/channel_io_stream.go:484-576 | the head buffer's parsing loop judges, counts and stops as `Sweep` says, before and after the decision to drop |
| StreamReader.Reader.ProcessCompleteLargeFrame | channel/io_stream/channel_io_stream.go:580-613 | a fully assembled large frame gets the verdict of its hash and size, counters and drop included |
| StreamReader.Reader.ReadLoop | channel/io_stream/channel_io_stream.go:370-477 | over any chunks the two-buffer reader delivers and counts exactly what `Fed` says; while live that is what the reference parser makes of their concatenation, and the connection is dropped exactly when that halts |
| StreamReader.FedIsRun | channel/io_stream/channel_io_stream.go:427-576 | the chunked reader is the reference parser while live; otherwise both have halted, and the reader has also delivered the frames it held beyond the point where the reference halted |
| Overrun.IndependentIff | channel/io_stream/channel_io_stream.go:427-576 | a stream delivers the same under all chunkings exactly if the reference parser does not halt at the verdict on a frame that fits the head buffer, or nothing is delivered of what the head buffer has room for behind that frame |
| Overrun.FedBetween | channel/io_stream/channel_io_stream.go:427-576 | of a stream that is dropped every chunking delivers at least what the reference parser does and at most what the head buffer has room for beyond |
| Overrun.ReadInTwo | channel/io_stream/channel_io_stream.go:484-576 | of a stream that drops with its last frame and one sound frame behind it, read in two pieces, the sound frame is delivered exactly unless the cut falls between the drop and the frame's end |
| StreamReader.RunAppend | channel/io_stream/channel_io_stream.go:427-470 | parsing a stream in two parts is parsing it at once |
| FrameVerdicts.Bears | channel/io_stream/channel_io_stream.go:427-613 | on any whole frames under any chunking the connection is kept exactly if bad hashes and small frames over the limit are not too many and no large frame is over it, and then exactly the payloads with a right hash within the limit are delivered |
| FrameVerdicts.StreamLiveIff | channel/io_stream/channel_io_stream.go:484-613 | the same from any counters on, which then stand at exactly the frames of each bad kind |
| FrameVerdicts.HugeDrops | channel/io_stream/channel_io_stream.go:532-540 | a frame over the limit that does not fit the head buffer drops the connection at its header |
| FrameVerdicts.NothingOverLimit | channel/io_stream/channel_io_stream.go:427-613 | no chunking of any bytes, after a drop or not, delivers a payload over the limit |
| StreamChannel.Receive | channel/io_stream/channel_io_stream.go:427-613 | on frames within the limit with tolerably many bad hashes no chunking gets the connection dropped, and exactly the frames with a right hash are delivered, in order |
| StreamChannel.EndToEnd | channel/io_stream/channel_io_stream.go:207-248 | for every interleaving of senders, merging writer and disconnect and every chunking, what is delivered is a prefix of the payloads offered while the queue had room; all of them once nothing is outstanding; on a graceful close all those offered before it; and if the queue was never full, these are the payloads offered |
| StreamSends.SendsDecide | channel/io_stream/channel_io_stream.go:207-248 | by the actions of a run alone: accepted is exactly what was offered while the queue had room, in order, and everything offered if it was never full |
| StreamSends.RefusedIffFull | channel/io_stream/channel_io_stream.go:240-247 | an enqueue is refused exactly if the queue is full, and leaves it alone then |
| StreamSends.OfferedWereSent | channel/io_stream/channel_io_stream.go:207-248 | whatever is offered comes from a send of the run, and no more often than sent |
| StreamSends.SendsPassCheck | channel/io_stream/channel_io_stream.go:207-239 | no send passes the check after a disconnect or with a payload over the limit |
| WriterLaws.SendRefusedIff | channel/io_stream/channel_io_stream.go:207-239 | in every reachable state a send is turned away exactly for its size or because a disconnect came first |
| WriterLaws.MergesWithin | channel/io_stream/channel_io_stream.go:691-716 | in every interleaving several frames are merged only behind a small one, never on a drain, and all but the last are below the merge limit |
| WriterLaws.MergesOn | channel/io_stream/channel_io_stream.go:691-716 | a merge stops only at an empty queue or at the limit |
| WriterLaws.WriterCatchesUp | channel/io_stream/channel_io_stream.go:619-764 | left alone the writer stops after boundedly many steps with everything accepted on the wire, and with the connection closed if a disconnect was signalled |
| StreamWriter.GracefulDisconnectSafety | channel/io_stream/channel_io_stream.go:619-764 | in every interleaving a disconnect is never lost, the wire carries a prefix of the accepted frames, and frames accepted before the status change are written before the close |
| StreamWriter.InvStep | channel/io_stream/channel_io_stream.go:833-898 | every step of writer, sender and disconnector keeps the handoff invariant |
| StreamWriter.GracefulDisconnectCompletes | channel/io_stream/channel_io_stream.go:781-898 | after the disconnect only boundedly many steps remain, and a run that cannot go on has closed the connection with everything accepted before written |
| Forest.RelateExact | impl/atbus_topology.go:284-337 | each relation kind holds exactly if its meaning in terms of ancestors does, so the kinds exclude each other |
| Forest.RelateMirror | impl/atbus_topology.go:284-337 | swapping the two peers swaps upstream and downstream kinds |
| Forest.RelateNextHop | impl/atbus_topology.go:284-337 | the next hop is one link away; downwards it is the unique child on the way |
| Forest.RelinkAcyclic | impl/atbus_topology.go:242-265 | moving a node under one that is not below it keeps every chain finite |
| Forest.RelinkCyclic | impl/atbus_topology.go:242-265 | moving it under itself or below itself would make a cycle |
| TopologyRegistry.Registry.UpdatePeer | impl/atbus_topology.go:217-282 | refused exactly for the id zero, a self-loop, or a new upstream with a peer of the target's id at or above it, changing at most the target's own mark and data; otherwise the peer is registered, marked and linked as asked; a known target keeps its data unless some are given, a new peer's are those given or blank, and all other data stay; the forest invariant holds after, and links stay the inverse of lists |
| TopologyRegistry.Registry.GetRelation | impl/atbus_topology.go:284-337 | the pointer walks compute exactly the relation and next hop of the forest |
| TopologyRegistry.Registry.MutablePeer | impl/atbus_topology.go:387-399 | finds the registered peer or registers a fresh passive one, keeping the invariant |
| TopologyRegistry.Registry.RemovePeer | impl/atbus_topology.go:185-215 | terminates in every reachable state and computes `Remove`, keeping the forest invariant |
| Topology.Remove | impl/atbus_topology.go:185-215 | the cascade by id is well-founded over registered peers, peers below and creation order, and its result satisfies the forest invariant |
| Topology.CascadeDecreases | impl/atbus_topology.go:185-215 | each level of a removal brings the lexicographic measure down, even when an upstream id was taken over |
| Topology.RemoveLeavesNoIdle | impl/atbus_topology.go:185-215 | a removal leaves no peer registered that nobody asked for and that has nothing below it, unless it was so before |
| Topology.RemoveListed | impl/atbus_topology.go:185-215 | links and lists stay exact inverses exactly unless the removed peer has peers below it and an upstream |
| RemovalTrail.RemoveIsTrail | impl/atbus_topology.go:185-215 | there is a trail of visits, told by the guards in the state before the removal alone, that says what is registered, listed and asked for afterwards |
| RemovalTrail.TrailDecides | impl/atbus_topology.go:185-215 | whoever follows the trail gets the outcome of the removal: the trail is unique |
| RemovalTrail.TakesUnrelatedIff | impl/atbus_topology.go:185-215 | a removal deregisters somebody other than its target and that one's passive ancestors exactly if the trail comes, with all peers below it visited, to one that is no ancestor or was asked for |
| RemovalTrail.NoTakerNoHarm | impl/atbus_topology.go:209-213 | if no visited upstream's id was taken over, every further peer on the trail is a passive ancestor and is deregistered, and nobody unrelated is |
| RemovalTrail.TakerFate | impl/atbus_topology.go:209-213 | a peer reached because it took over an id is younger, loses flag and listing, is deregistered if nobody is below it, and stays if somebody unvisited is |
| RegistryRuns.RemovalTakesTaker | impl/atbus_topology.go:185-282 | five updates and removals on a new registry after which a peer that was asked for and is unrelated to the removed one is gone |
| RegistryRuns.RefusedInVainIff | impl/atbus_topology.go:241-254 | a move is refused although it would close no cycle exactly if the target is neither linked to the new upstream nor above it, but a deregistered peer with its id is |
| RegistryRuns.CyclesRefused | impl/atbus_topology.go:241-254 | a move that would close a cycle is always refused |
| RegistryRuns.OnPathRegistered | impl/atbus_topology.go:246-254 | with only registered peers above the new upstream the walk by ids finds exactly the target |
| RegistryRuns.ListedRefusal | impl/atbus_topology.go:217-282 | where links and lists are inverses an update is refused exactly for the id zero, a self-loop, or a cycle |
| RegistryRuns.UpdateRun | impl/atbus_topology.go:217-282 | so it is for each of any updates on a new registry |
| RegistryRuns.RefusedForNamesake | impl/atbus_topology.go:217-282 | five calls on a new registry, the last of which is refused although the two peers are unrelated and the link would close no cycle |
| NodeRoutes.Node.AddEndpoint | impl/atbus_node.go:1383-1462 | refused exactly while resetting, before initialisation, and for no or another node's endpoint; otherwise the endpoint goes to the upstream slot exactly if the registry puts its id above the node, and slot and table stay disjoint and keyed by id |
| NodeRoutes.Node.RemoveEndpoint | impl/atbus_node.go:1464-1513 | removes that very endpoint only, and says whether it did; the node's own id is refused exactly unless the slot holds it |
| NodeRoutes.Node.SetTopologyUpstream | impl/atbus_node.go:1293-1356 | the registry is asked exactly if the node has an id and is not below `tid` yet, and then changes as an update does, with all stored data kept; endpoints move between slot and table and none is lost or invented, whether the move is accepted, skipped or refused |
| NodeRoutes.ReroutedAbove | impl/atbus_node.go:1293-1356 | afterwards the node is below `tid`, exactly unless it has no id or the move was refused |
| NodeRoutes.Node.RemoveChild | impl/atbus_node.go:2746-2775 | removes the entry only if it is the expected endpoint |
| Routing.GetPeerChannel | impl/atbus_node.go:1168-1291 | the search with its loop over ancestors chooses `ChooseHop`, and says whether there is one and it is linked |
| Routing.NearestRoute | impl/atbus_node.go:1223-1252 | the neighbour search picks the nearest ancestor with a direct route that is not blacklisted, if there is one |
| Routing.ChosenIsAllowed | impl/atbus_node.go:1168-1291 | no path of the search returns a blacklisted endpoint or one the node does not hold |
| ForwardingLaws.NeighbourFirst | impl/atbus_node.go:1177-1199 | a neighbour is reached directly or, if blacklisted, not at all |
| ForwardingLaws.DownwardsByChild | impl/atbus_node.go:1201-1220 | a target below goes exactly to the child on the way, if that has a route and is not blacklisted |
| ForwardingLaws.AcrossByNearest | impl/atbus_node.go:1234-1271 | a target in another branch goes exactly to its nearest ancestor with a route that is not blacklisted, and upwards if there is none |
| ForwardingLaws.OthersUpwards | impl/atbus_node.go:1222-1271 | any other target goes exactly to the upstream, if that is allowed |
| Routing.OnRecvDataTransferReq | message_handle/atbus_message_handler.go:618-725 | the handler that rewrites the message in place delivers, forwards, retries over the upstream or answers as `OnDataReq` says |
| ForwardingLaws.ForwardsToFirst | message_handle/atbus_message_handler.go:687-725 | a request whose first hop can be sent to goes there with this node appended to its routers, and nobody gets an error |
| ForwardingLaws.ForwardsToUpstream | message_handle/atbus_message_handler.go:691-725 | if it cannot be, but is a neighbour or there is none, and the upstream is neither it nor the previous hop, the request goes to the upstream without an error, or nowhere with the second attempt's |
| ForwardingLaws.ForwardsNowhere | message_handle/atbus_message_handler.go:691-725 | in all other cases nothing is sent and the response carries the first attempt's error |
| ForwardingLaws.UpstreamTakesOverIff | message_handle/atbus_message_handler.go:691-713 | a request that failed at its first hop goes on exactly if the upstream may be tried and can be sent to |
| ForwardingLaws.EndsHere | message_handle/atbus_message_handler.go:648-685 | a request that is too old, at its target, or out of time is not passed on; it is delivered exactly at its target, and answered with just that result, there only if an answer was asked for |
| Routing.OnRecvDataTransferRsp | message_handle/atbus_message_handler.go:727-783 | responses are kept or passed on as `OnDataRsp` says |
| ForwardingLaws.ResponsePassedOn | message_handle/atbus_message_handler.go:727-783 | a response is kept exactly at its target, and passed on elsewhere exactly if the hop chosen for it can be sent to |
| Routing.ForwardDataMessage | message_handle/atbus_message_handler.go:579-616 | excludes the previous hop, and rewrites the source only when it sends |
| Routing.MakeTransferResponse | message_handle/atbus_message_handler.go:490-532 | turns the request into the response to itself in place |
| ForwardingLaws.ResponseIs | message_handle/atbus_message_handler.go:490-532 | the response turns sender and target round, carries the code, and names this node once as its last router |
| Flights.HopBound | impl/atbus_node.go:1060-1107 | whatever the registries and tables say, and however they change between hops, one send causes at most ttl transmissions of the request, its router list is exactly the transmitting nodes in order, and it is never sent straight back |
| ForwardingLaws.SentIff | impl/atbus_node.go:1060-1107 | a node's own request leaves over the chosen hop exactly if that has a data connection that sends, with the node as its only router |
| ForwardingLaws.ControlSentIff | impl/atbus_node.go:1712-1794 | a control message leaves over the chosen hop exactly if that has a control connection that sends |
| Flights.FlightLinks | message_handle/atbus_message_handler.go:618-725 | each transmission leaves from where the last one arrived and changes only router and source |
| TreeRouting.HopsIsDistance | impl/atbus_node.go:1168-1291 | the number of hops the routing takes is the distance in the tree |
| TreeRouting.TreeDelivery | message_handle/atbus_message_handler.go:579-725 | in a consistent tree a request at distance d is delivered after exactly d transmissions if d is at most the ttl, and otherwise transmitted ttl times, delivered to nobody and answered once; the nodes in between pass it on and do nothing else |
| TreeRouting.TreeRefusal | message_handle/atbus_message_handler.go:490-532 | out of reach of the ttl no node but the last responds, its response is the ttl error, and that gets back to the sender over the tree, once |
| TreeRouting.TreeResponse | message_handle/atbus_message_handler.go:727-783 | a response reaches its target over the path, once, however long one watches, and nobody else keeps it |
| NodeViews.RelateByIds | impl/atbus_topology.go:284-337 | where upstreams of registered peers are registered, the registry's relation and next hop are those of the forest of ids |
| NodeViews.AskRelation | impl/atbus_topology.go:284-337 | what the registry object answers about a node and a target is the relation and next hop of that node's view |
| NodeViews.CompleteNodeSeesTree | impl/atbus_node.go:1168-1291 | a node whose slot and table hold exactly its registered neighbours answers every routing question as the tree of ids does |
| NodeViews.DeliveryAsSeen | message_handle/atbus_message_handler.go:579-725 | the delivery theorem holds in every world whose nodes have that view, however it is represented |
| NodeViews.RefusalAsSeen | message_handle/atbus_message_handler.go:490-725 | and so does the theorem on requests out of reach, whose error gets back |
| Fleet.FleetRoutes | message_handle/atbus_message_handler.go:579-725 | for node objects whose registries agree and whose tables are complete, a request is delivered over the distance, once, or comes to nothing but the ttl error, which gets back to the sender |
| Fleet.TwoNodes | impl/atbus_node.go:1383-1462 | such nodes are made by updates and added endpoints |
| Negotiation.NegotiateCryptoAlgorithm | impl/atbus_connection_context.go:1171-1204 | the loop over the priority list finds its first common entry, or none |
| Negotiation.NegotiationAgrees | impl/atbus_connection_context.go:1567-1603 | for all lists the client's choice from the server's one-element reply is the server's, which is the best common algorithm or none |
| NegotiationLaws.ChosenIsFirst | impl/atbus_connection_context.go:1171-1204 | no common algorithm has an earlier place than the one chosen |
| NegotiationLaws.EncryptsIfPossible | impl/atbus_connection_context.go:1171-1204 | no encryption exactly if the two ends share no cipher |
| NegotiationLaws.AuthenticatedWins | impl/atbus_connection_context.go:1171-1204 | an authenticated cipher whenever they share one |
| NegotiationLaws.BlocksBeforeStream | impl/atbus_connection_context.go:1171-1204 | next to those a block cipher in chaining mode, before the bare stream cipher, before XXTEA |
| NegotiationLaws.LongestKeyWins | impl/atbus_connection_context.go:1171-1204 | within AES in one mode the longest key they share |
| NegotiationLaws.LargestNonceWins | impl/atbus_connection_context.go:1171-1204 | among authenticated ciphers never a smaller nonce than one they share |
| Handshake.ConnectionContext.HandshakeGenerateSelfKey | impl/atbus_connection_context.go:1514-1538 | new key pair and sequence, or the error, as `GenerateSelfKey` says |
| Handshake.ConnectionContext.HandshakeReadPeerKey | impl/atbus_connection_context.go:1541-1603 | the write key changes at once and the read key at once or staged; on an error nothing changes |
| Handshake.ConnectionContext.ConfirmHandshake | impl/atbus_connection_context.go:1640-1653 | promotes the staged receive session if the sequence matches and one is pending; with another sequence the whole context stays as it was |
| HandshakeLaws.KeyPairMade | impl/atbus_connection_context.go:1514-1538 | a key pair needs a curve; the sequence is the peer's, or this end's next one, and nothing else changes |
| HandshakeLaws.ReadsIff | impl/atbus_connection_context.go:1541-1603 | the peer's key is taken exactly if the two ends can agree; each error has its exact reason and changes nothing |
| HandshakeLaws.SessionsSet | impl/atbus_connection_context.go:1541-1635 | the new session seals with the negotiated algorithm under the derived key, for writing at once, for reading at once or staged |
| HandshakeLaws.ClosingRefuses | impl/atbus_connection_context.go:1514-1635 | a closing context refuses each of these and stays as it is |
| HandshakeLaws.OtherConfirmIgnored | impl/atbus_connection_context.go:1640-1653 | a confirmation of another sequence, or that nobody waits for, changes nothing |
| HandshakeLaws.RightConfirmPromotes | impl/atbus_connection_context.go:1640-1653 | the right one makes the staged session the read session and nothing else |
| HandshakeLaws.OnlyItsConfirm | impl/atbus_connection_context.go:1640-1653 | after the server answered a request, a confirmation makes it open what the new key seals exactly if it confirms that request, or if it could before |
| HandshakeLaws.LateConfirmIgnored | impl/atbus_connection_context.go:1640-1653 | after two answered requests the confirmation of the first changes nothing, and that of the second promotes its session |
| Handshake.OnRecvAsk | message_handle/atbus_message_handler.go:1411-1457 | the server's handling of a register or ping request, as `ServerAsk` says |
| Handshake.OnRecvAnswer | message_handle/atbus_message_handler.go:1479-1496 | the client's handling of the reply and the confirmation it sends, as `ClientAnswer` says |
| Handshake.ExchangeAgrees | impl/atbus_connection_context.go:1514-1635 | one exchange gives both ends the same new key and algorithm, the best they share, or changes nothing |
| Registration.SendRegister | message_handle/atbus_message_handler.go:456-482 | the handshake part of a register message: a key pair is made only by a client's request whose context names a key exchange, and offered as `RegisterOffer` says |
| Registration.SendPing | message_handle/atbus_message_handler.go:366-383 | the handshake part of a ping: a refresh on an encrypted client connection when it is due, as `PingOffer` says |
| HandshakeLaws.PingCarriesKeyIff | message_handle/atbus_message_handler.go:366-383 | a ping carries a key exactly if a refresh is due on an open, encrypted client context with a curve |
| HandshakeLaws.PingKeyIsFresh | message_handle/atbus_message_handler.go:366-383 | that key is the new pair's, under the next sequence; no session changes |
| HandshakeLaws.RegisterKeyIsFresh | message_handle/atbus_message_handler.go:456-482 | so is the key of a client's register request; a server's response offers the algorithm it has settled on, and none if it reports an error |
| Registration.RequestCarriesKeyIff | message_handle/atbus_message_handler.go:456-482 | a client's register request carries a key exactly if the open context has a key pair already |
| Registration.RegisterIsAsk | message_handle/atbus_message_handler.go:1227-1240 | with a usable key in the request the server's registering is its step on a request in the protocol |
| Registration.RegisteringNeverKeys | impl/atbus_connection_context.go:1317-1325 | from two new contexts, register messages, pings and data in any order never give either end a key |
| Renegotiation.RenegotiationSafety | impl/atbus_connection_context.go:1514-1653 | with one handshake outstanding at a time, in every reachable state every message under way meets a reader that opens it, through any number of refreshes |
| Renegotiation.HandshakeCompletes | message_handle/atbus_message_handler.go:1388-1559 | the four steps of a handshake move both ends, both ways, to one new key |
| Overlap.RefreshSafeIff | message_handle/atbus_message_handler.go:366-382 | for all lawful primitives, from every encrypted state of the protocol: a refresh is followed by safe runs only, exactly if no usable request is unanswered |
| Overlap.OverlapHappens | message_handle/atbus_message_handler.go:366-382 | a first handshake, a refresh and another refresh make a message unreadable |
| Overlap.CallbackReadableIff | message_handle/atbus_message_handler.go:1411-1457 | what the ping callback sends before the pong leaves everything readable exactly if the client's old session opens it |
| Overlap.CallbackBreaks | message_handle/atbus_message_handler.go:1411-1457 | with a usable request and another key than the last one it is unreadable |
| StaticBlock.MimallocPaddingSize | buffer/static_buffer_block.go:173-217 | computes the padded size by the branches and bit counting of the original |
| StaticBlock.MediumIsTable | buffer/static_buffer_block.go:192-211 | the medium sizes are a table of eight values |
| StaticBlock.MediumWaste | buffer/static_buffer_block.go:192-211 | in the medium class the waste is at most an eighth of the request exactly in four ranges of sizes |
| StaticBlock.PaddingCovers | buffer/static_buffer_block.go:173-217 | a padded size holds the request, is whole words, and wastes less than three quarters |
| StaticBlock.PaddingMonotone | buffer/static_buffer_block.go:173-217 | larger requests never get smaller blocks |
| StaticBlock.OtherClasses | buffer/static_buffer_block.go:173-217 | outside the medium class a request goes up to the next multiple of 8, 16 or 4096 |
| StaticBlock.BitWidth | buffer/static_buffer_block.go:220-230 | the shifting loop counts the bits |
| StaticBlock.AllocateTemporaryBufferBlock | buffer/static_buffer_block.go:233-243 | a block for every positive size, with room for it and all of it in use |
| StaticBlock.StaticBufferBlock.SetUsed | buffer/static_buffer_block.go:96-107 | clamps to the block |
| Padding.UnpadExactly | impl/atbus_connection_context.go:975-1016 | removing the padding gives a plaintext back exactly if the blocks are that plaintext padded |
| Padding.PadBlocks | impl/atbus_connection_context.go:692-716 | the filling loop pads as section 6.3 of RFC 5652 says |
| Padding.StripBlocks | impl/atbus_connection_context.go:998-1015 | the checking loop accepts and strips exactly a proper padding |
| Padding.PadTea | impl/atbus_connection_context.go:756-779 | XXTEA's padding starts with the plaintext and is whole words, at least two |
| Padding.PadForm | impl/atbus_connection_context.go:692-716 | one to sixteen bytes that each give their number |
| Padding.TeaForm | impl/atbus_connection_context.go:756-779 | one to four bytes that each give their number, and zeros up to eight bytes in all |
| MessagePack.PackMessage | impl/atbus_connection_context.go:1761-1856 | computes `Packed`, and the block holds the whole frame: nothing is cut off |
| MessagePack.PackMessageWith | impl/atbus_connection_context.go:1859-1986 | the body compressed if that helps, sealed, framed and laid out whole in a block, with the head saying how |
| MessagePack.UnpackMessage | impl/atbus_connection_context.go:1991-2115 | computes `Unpacked`, with every error of the original |
| PackLaws.SealedUnlessHandshake | impl/atbus_connection_context.go:1727-1986 | under a keyed session every message but the five of the handshake goes out with a head that names the session's algorithm and fresh random bytes, and with its body, compressed if that helps, sealed under the session's key |
| PackLaws.ClearIfHandshake | impl/atbus_connection_context.go:1727-1986 | the five, and all messages without a keyed session, go out in clear |
| PackLaws.StrangerRefusedIff | impl/atbus_connection_context.go:1727-2115 | a receiver without a live session of the algorithm reports the mismatch exactly if the message is none of the five |
| PackLaws.PackFailsIff | impl/atbus_connection_context.go:1761-1986 | packing fails exactly for a body over the limit or one the compressor cannot take |
| PackLaws.CompressedIff | impl/atbus_connection_context.go:1742-1758 | the head names a compression exactly if the body is long enough for its kind and got shorter |
| PackLaws.SealedSizes | impl/atbus_connection_context.go:564-779 | how much longer each kind of cipher makes a body |
| PackLaws.NonceRefused | impl/atbus_connection_context.go:2047-2064 | a nonce of another length than the cipher's is refused |
| PackLaws.UnpackNeedsKey | impl/atbus_connection_context.go:2041-2045 | what claims to be sealed is unpacked only under a live session of the algorithm it names |
| PackLaws.UnpackNeedsCompressor | impl/atbus_connection_context.go:2079-2101 | what claims to be compressed is unpacked only by a supported algorithm, given as many bytes as it claims |
| PackLaws.UnpacksWithinLimit | impl/atbus_connection_context.go:2007-2035 | neither a frame nor a body longer than the limit and its allowance is unpacked |
| PackLaws.UnpackedSize | impl/atbus_connection_context.go:2103-2112 | an unpacked body has just the size that the head gives |
| MessagePack.UnpackPacked | impl/atbus_connection_context.go:1859-2115 | for every algorithm combination, unpacking with the packing key gives back head fields and body unless the frame is longer than the receiver takes, if the encodings' lengths fit signed integers |
| MessagePack.ComesBackIff | impl/atbus_connection_context.go:1761-2115 | exactly when a message comes back, with old crypto or compression info in its head or not |
| MessagePack.SmallHeadFits | impl/atbus_connection_context.go:2007-2010 | with an encoded head of at most 238 bytes the receiver's limit is never in the way |
| MessagePack.StaleCryptoFails | impl/atbus_connection_context.go:1812-1856 | old crypto info on a message sent unsealed makes it unreadable, unless it names the receiver's own cipher |
| MessagePack.StaleCompressionFails | impl/atbus_connection_context.go:1991-2115 | old compression info on a message sent uncompressed makes it unreadable if the receiver's checks notice it |
| BufferDeque.ModesAgree | buffer/buffer_manager.go:157-270 | with equal limits the two modes agree on errors, sizes, offsets and costs over a run exactly if it never asks an empty manager for an empty block |
| BufferModes.DriveBoth | buffer/buffer_manager.go:157-270 | a manager over a list and one over a ring, driven through the same run, report the same errors exactly if the run never asks an empty manager for an empty block, and then end with the same blocks |
| BufferDeque.RunConserves | buffer/buffer_manager.go:157-270 | over any run the bytes added are the bytes read and the bytes left, and the limits are kept |
| DequeLaws.QueueOrStack | buffer/buffer_manager.go:157-380 | blocks pushed at one end and popped at the other come out in the order they went in, popped at the same end in the opposite order |
| DequeLaws.PushRefusedIff | buffer/buffer_manager.go:157-208 | a push is refused for a limit exactly if it would exceed one, and changes nothing then |
| DequeLaws.PopTouchesEnd | buffer/buffer_manager.go:312-380 | a pop reads on in the block at its end and frees it exactly if asked to and all of it was read; no other block changes |
| DequeLaws.MergeGrowsEnd | buffer/buffer_manager.go:227-270 | a merge is refused exactly for the size limit, and otherwise makes the block at its end longer and no other |
| BufferManager.BufferManager.Push | buffer/buffer_manager.go:157-208 | in either mode a push at either end is the deque's push, the counters are the block count and the bytes left, and live blocks share no memory |
| BufferManager.BufferManager.Pop | buffer/buffer_manager.go:211-224 | in either mode a pop at either end is the deque's pop; the saturating subtraction never saturates |
| BufferManager.BufferManager.PopSome | buffer/buffer_manager.go:312-380 | the counters fall by exactly what was read and by the block that was freed |
| BufferManager.BufferManager.FreeSlot | buffer/buffer_manager.go:542-623 | freeing a slot at either end leaves the other blocks in their order around the ring |
| BufferManager.BufferManager.Merge | buffer/buffer_manager.go:227-270 | in either mode a merge at either end is the deque's merge and keeps the old bytes |
| BufferManager.BufferManager.StaticPush | buffer/buffer_manager.go:462-540 | below the limit the ring is never full, and the slots stay in order |
| BufferManager.BufferManager.FixLimit | buffer/buffer_manager.go:567-579 | an emptied manager starts over, otherwise the count falls by what was read |
| BufferManager.BufferManager.Count | buffer/buffer_manager.go:684-699 | the number counted from list or ring positions is the cost number |
| Binding.Endpoint.AddConnection | impl/atbus_endpoint.go:159-200 | binds a free connection as control or data connection and keeps bindings consistent |
| Binding.Endpoint.RemoveConnection | impl/atbus_endpoint.go:202-248 | unbinds, and empties the endpoint when the control or last data connection goes; the mutual recursion terminates |
| Binding.Endpoint.Reset | impl/atbus_endpoint.go:76-119 | the loop of nested connection resets comes to one simple step: all members gone, unbound and told of |
| Binding.Connection.Reset | impl/atbus_connection.go:63-89 | the connection's half of the recursion comes to one simple step, and terminates |
| Binding.BindingsConsistent | impl/atbus_endpoint.go:159-248 | after any sequence of additions, removals and resets a connection is bound to an endpoint exactly if it occurs once among its members |
| Binding.EndpointResetTells | impl/atbus_endpoint.go:76-119 | resetting an endpoint empties it and signals the disconnect once per member |
| Binding.ConnectionResetTells | impl/atbus_connection.go:63-89 | resetting the control or last data connection empties the endpoint and signals once per member, that connection last |
| Binding.OtherResetTells | impl/atbus_connection.go:63-89 | resetting any other connection takes out and signals that one alone |
| Binding.RemovalTells | impl/atbus_endpoint.go:202-248 | removing without resetting signals a control connection too, and a last data connection not |
| BindingLaws.AcceptedIff | impl/atbus_endpoint.go:159-182 | a connection is accepted exactly if the endpoint is not being reset and the connection is free or bound there already |
| BindingLaws.AddPlaces | impl/atbus_endpoint.go:183-200 | the first that need not be a data connection becomes the control connection, any other the last data connection, and nobody else notices |
| BindingLaws.RemovalRefusedIff | impl/atbus_endpoint.go:202-214 | a removal is refused exactly if the connection is not bound there, and then does nothing |
| BindingLaws.PlainRemoval | impl/atbus_endpoint.go:227-244 | removing a connection the endpoint can do without takes out it alone, keeps the order and tells nobody |
| BindingLaws.RemovalDuringReset | impl/atbus_endpoint.go:214-218 | from an endpoint in the middle of a reset it only frees the connection |
| BindingLaws.ResetKeepsOthers | impl/atbus_endpoint.go:76-119 | a reset touches no other endpoint and no connection but the members |
| BindingLaws.FreeReset | impl/atbus_connection.go:63-89 | resetting a free connection only tells of it |

## Left out

- Sockets, dialing, listeners, file locks, logging and statistics: input and output, or tables.
- Cipher, hash, curve, key derivation and compressor internals, and access tokens: parameters with laws.
- Forced disconnects, context cancellation, write errors and sends racing with the close of the write queue: the writer's transition system has none of them.
- Users' callbacks do nothing, apart from the ping callback's send in `Overlap`, so re-entrant calls from them are not covered.
- User data returned by the accumulating frame reader is a value here; the original hands out a slice of its buffer that later writes may overwrite.
- The two storage modes' blocks are compared by size, offset and cost, not by the bytes a fresh block happens to hold; a grown front block keeps its read offset, as in the original, so its unread part is not the old unread part.
- Front and back operations of the buffer manager differ in the end alone and share one method each, with the end as a parameter; sizes are not negative.
- The connection context's sessions are values, since the original never shares a session between two roles.
- Renegotiation.RenegotiationSafety: plain pings without a handshake are not in the channels, because they carry no keys; a refused registration tears the connection down and is not followed further; both contexts stay open, since a closing one only answers errors.
- MessagePack.ComesBackIff: messages with old info in their head that has the receiver decrypt or decompress bytes that were never encrypted or compressed (`RunsForeign`) are excluded, because what comes of that depends on the cipher and the decompressor.
- MessagePack.UnpackPacked: a message whose body encodes to nothing comes back without a body, as in the original.
- MessagePack.PackMessage: heads and bodies whose encodings are 2^63 bytes or longer are excluded, as lengths in the original are signed 64-bit integers.
- Overlap.RefreshSafeIff: the two key pairs must lead to different session keys; a request that is unanswered and has the sequence number zero, after a wrap-around, is not usable and not covered.
- Overrun.ReadInTwo: two pieces within the head buffer; for longer streams and more pieces the buffer's fill at the drop depends on all earlier cuts, and Overrun.IndependentIff says when they matter.
- NodeViews.CompleteNodeSeesTree: the nodes' registries are consistent, all links are up and sending succeeds.
- Handshake.OnRecvAsk: a request without a usable key is answered without one, as pings are; the original's response to such a register request would offer the server's old key again, if it has one, which needs a second registration on a keyed connection and a sequence number that wrapped to zero.
- TreeRouting.TreeResponse: responses are followed in the consistent tree only; they carry no time to live, so there is no bound on them in contradictory topologies.
- Flights.HopBound: counts transmissions of the request, not of the responses it may cause.
- Restoring a node's state after losing its upstream, timers, and the ping and garbage-collection lists.
- Topology policies, custom commands, and the sorting of data connections by load.
- Sequence numbers of messages other than the handshake's.
- Endpoint ids and peer ids are unbounded here; the original's are 64 bits and only compared.
