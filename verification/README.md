# Verification model of the Apron gateway

The gateway carries requests of a client over two hops to a service somebody else offers. This project
models the parts of it where bytes, identities and amounts could go astray, and proves that they do not,
or exactly when they do.

| module | what it models |
|---|---|
| `Bytes`, `Text` | byte strings, big-endian numbers, numerals, splitting and joining |
| `Frames` | the framed stream: an 8-byte length, then the body |
| `Bufio`, `FrameReaders` | Go's buffered reader over a source that arrives in arbitrary chunks, and the frame reads on top of it: one reader kept for all frames, or a new one for each |
| `Wire`, `Messages` | the protobuf messages of the tunnel and of the agents |
| `Links`, `Tunnel`, `Gateway` | one connection through both gateways; any number of them, interleaved, found by request id in the gateways' tables; the handlers that change those tables |
| `IpText`, `Socks5`, `Handshakes` | the text form of addresses, the SOCKS5 requests that the agents read and write, and when their arrival decides the outcome |
| `AgentSetup`, `Agents` | concurrent session set-up in the client-side agent, and the whole way of a SOCKS5 session to the service |
| `Responses` | the way back, from the service's reply to the client |
| `Registry`, `Replication` | a node's services and their owners; the registries of many nodes, kept up by broadcast |
| `WireBytes` | the bytes of all these formats, written out |
| `Usage`, `RequestId` | usage counters with their draining export, and the ids they are recorded by |
| `NamePattern`, `RequestPath`, `Attribution` | what a URL path names, and how usage finds its way back to it |
| `HttpResponses` | which HTTP response reaches which waiting client |

The readers, the gateway's tables, the registry, the usage manager and the request detail are classes, as
in the repository; each method is specified by a function of the old state, and the theorems are about
those functions. Everything that runs concurrently is a step machine; its theorems hold for every run.

## Assumptions

- A read returns at least one byte or end of file, and the source never returns another error. A slice
  longer than 2^63 - 1 bytes cannot be made (`make` panics), and every length of a real slice is below that.
- A uuid makes a request id different from every earlier one (`Tunnel.FreshId`, `HttpResponses.Enabled`).
- In the tunnel, a message is delivered only when its connection is already in the table (the intent stated
  at internal/trans_network/node_proxy_handler.go:200; `Gateway.DataPanicsIff` says when it is not), and only
  reads that lose no read-ahead are steps. `FrameReaders` says which reads those are. Streams between gateways are FIFO.
- In the tunnel's opening step the service-side gateway can serve the request; `Gateway.Node.HandleSocketInit` says
  when it can.
- Broadcasts travel one hop, so that the sender is the owner; they arrive in the order of publication from
  each sender; each node publishes in the order of its updates; each service id has one home node.
  `Replication.TwoHomesDiverge` shows that the last one is needed.
- A locked region, and a handler's read of a map outside the lock, is one atomic step.
- Where a SOCKS5 request is taken as understood, the plain reads of its handshake are full (`Socks5.FullReads`).
  `Handshakes.UnderstoodIffFullReads` proves that this is the exact condition, and
  `Handshakes.UnderstoodIffUncut` tells it from the arrival.
- Protobuf is modelled by its wire format for strings, bytes and unsigned numbers, with merging of repeated
  fields. The binary codec of the agents' connect request is replaced by a small concrete one of the same
  fields.

## Where the code differs from what it says or seems to want

- A fresh reader per frame forgets what it has read ahead, so the reading loops on raw streams are correct
  only when every frame ends with a chunk or in a read that needs no buffer
  (`FrameReaders.FreshReaderCorrectIffFramesFit`). The client-side agent reads responses in such a loop too
  (`Agents.ResponseReachesClient`).
- A stream that ends right behind the header of a non-empty body reads as a plain end of file
  (`Frames.TruncatedStream`), so the client loop ends on it without an error.
- The client-side agent checks neither the version nor the command of the SOCKS5 request, and the
  service-side agent always asks for CONNECT (`Socks5.RequestSurvives`).
- The service-side gateway decodes the service request as an init request. The fields it uses have the
  same numbers and types in both (`Messages.ServiceRequestReadsAsInit`).
- Service id and user key are looked for in the whole path, not in its second segment, so a path whose
  segment is short takes both from behind it (`RequestPath.ShortSegmentIsSkipped`,
  `RequestPath.TestPathNamesNoTestkey`), and a long word in the rest makes a good path fail
  (`RequestPath.PathRoundTripIff`).
- The gateway goes on after a path error with an empty service id and user key
  (internal/trans_network/csgw_http.go:111-113); `Attribution.NamedBy` does the same.
- A request's channel is entered in the table only after the request is sent, so an early response hangs
  its client for ever (`HttpResponses.HungIffEarly`, `HttpResponses.EarlyResponseHangs`).
- A peer that is missing for one sweep loses its services at the sweeping node for good, although it goes on
  offering them, until it publishes each of them again (`Replication.SweptServicesStayLost`).
- The agent cuts the service's answer into messages that can be longer than the gateway's read
  (`Agents.FullReadMakesLongMessage`). Such a message is cut, and the client loses bytes of it
  (`Responses.PiecesCarryAllIff`, `Responses.FullReadLosesBytes`).
- The reader of the client's SOCKS5 handshake is dropped with what it has read ahead, so client bytes that come
  in the chunk of the request are lost (`Handshakes.NothingReadAheadIff`, `Handshakes.EarlyDataIsDropped`).
- The service's reply to the connect request is read by one plain read through a reader that is dropped: bytes
  that come with it are lost (`Responses.BannerIsDropped`), and the second part of a reply that comes in two goes
  to the client as data (`Responses.SplitReplyIsRelayed`).
- Nothing holds back a data message until the service connection is open, and one that overtakes it makes its
  handler panic (`Gateway.HastyDataPanics`).
- Sessions of one client-side agent share `RemoteSocketConn`, so set-ups at the same time can cross
  (`AgentSetup.InterleavedSetupsCross`).

## Model

| member | source | states |
|---|---|---|
| `Frames.ParseFrame` | internal/trans_network/network_helper.go:65-100 | a successful frame read shortens the stream by exactly a header and the returned payload; a failed one never leaves more bytes than there were |
| `Frames.ParseFrameOfFrame` | internal/trans_network/network_helper.go:65-100 | a frame followed by anything reads as its payload and leaves what follows |
| `Frames.CutFrame` | internal/trans_network/network_helper.go:68-93 | one frame cut short: a plain end of file exactly at its start and right behind its header, an unexpected one at every other place |
| `Frames.LengthPanicIff` | internal/trans_network/network_helper.go:85 | a length is refused if and only if its highest bit is set |
| `Frames.FramedStreamRoundTrip` | internal/trans_network/network_helper.go:16-49 | the stream of any list of payloads reads back as that list, then a plain end of file |
| `Frames.ParseAllAppend` | internal/trans_network/network_helper.go:52-62 | reading frames followed by anything gives those frames, then what the rest reads as |
| `Frames.ParseAllIsPrefix` | internal/trans_network/network_helper.go:52-62 | for any bytes at all, the frames read re-encode to a prefix of them: reading invents nothing |
| `Frames.EncodeAllPrefix` | internal/trans_network/network_helper.go:16-49 | one framed stream is a prefix of another only if its payload list is: frames are uniquely decodable |
| `Frames.TruncatedStream` | internal/trans_network/network_helper.go:68-93 | a stream cut at any byte yields exactly the complete frames, then a plain end of file exactly at a frame boundary or right behind the header of a non-empty body, and an unexpected one elsewhere |
| `Bytes.BigEndianRoundTrip` | internal/trans_network/network_helper.go:17-19 | the bytes of a number read back as it modulo the values of that many bytes, so as itself when it fits |
| `Bufio.Conn.Read` | internal/trans_network/network_helper.go:66-87 | one read of the chunked source: which bytes come and what stays |
| `Bufio.Reader.Read` | internal/trans_network/network_helper.go:66 | one read of a buffered reader: the class with its buffer and indices does what the chunk-level function says, and writes nothing outside the asked range |
| `Bufio.Reader.ReadFull` | internal/trans_network/network_helper.go:87 | io.ReadFull over that reader: the bytes returned, the count, and the reader's new state |
| `Bufio.FullReadTakesPrefix` | internal/trans_network/network_helper.go:87 | whatever the chunks, ReadFull returns the next k pending bytes, or all there are, and leaves the others pending |
| `Bufio.FullReadReadAhead` | internal/trans_network/network_helper.go:66-87 | what a read leaves in the buffer is less than one buffer |
| `FrameReaders.ReadOneFrame` | internal/trans_network/network_helper.go:65-100 | the frame read of the class refines the step function, state included |
| `FrameReaders.FrameStepReadsPending` | internal/trans_network/network_helper.go:65-100 | its result and what stays pending depend on the bytes alone, never on the chunks |
| `FrameReaders.ReadAllFrames` | internal/ext_protocols/socks5/apron_agent_server.go:251-261 | the agent's read loop on one kept reader returns what its pending bytes parse to |
| `FrameReaders.PersistentReaderCorrect` | internal/ext_protocols/socks5/apron_agent_server.go:251-255 | for every list of payloads and every cutting into chunks, a kept reader returns exactly those payloads, then end of file |
| `FrameReaders.PersistentReaderOnTruncatedStream` | internal/trans_network/network_helper.go:68-93 | the same on a stream cut short: the complete frames, and which end of file |
| `FrameReaders.LossIsBounded` | internal/trans_network/network_helper.go:66 | a fresh reader drops at most 4095 bytes per frame |
| `FrameReaders.LossBoundIsReached` | internal/trans_network/network_helper.go:66 | and there are chunks for which it drops that many |
| `FrameReaders.FreshRunConserves` | internal/trans_network/network_helper.go:52-66 | the source's bytes cover the returned frames and everything dropped |
| `FrameReaders.FreshReaderCorrectIff` | internal/trans_network/csgw_socket.go:119-121 | the loop of fresh readers returns the payloads written if and only if no call drops a byte |
| `FrameReaders.AlignedIsLossless` | internal/trans_network/csgw_socket.go:119-121 | chunks that end wherever a frame ends are always enough, whatever their size |
| `FrameReaders.FreshReaderCorrectIffFramesFit` | internal/trans_network/csgw_socket.go:119-121 | for all chunks: correct if and only if each frame ends with a chunk, or its part in its last chunk is at least 4096 bytes with the header complete before that, or with the header in it exactly 4096 or at least 8192 bytes; a condition on sizes alone |
| `FrameReaders.FirstOfChunk` | internal/trans_network/network_helper.go:66 | of a chunk that one refill takes whole, the first frame is returned and all behind it lost |
| `FrameReaders.LossInNumbers` | internal/trans_network/network_helper.go:66 | in numbers: behind a frame of 11 bytes in a chunk of 5011, 4085 bytes are lost and 915 are left |
| `FrameReaders.FreshReaderCorrectIffAligned` | internal/trans_network/csgw_socket.go:119-121 | for chunks no longer than the buffer this is: every frame ends at the end of a chunk |
| `FrameReaders.FullInitReadIsFrameRead` | internal/trans_network/csgw_socket.go:31-47 | the gateway's own init read, when its plain read is full, is a frame read |
| `FrameReaders.InitReadOkIff` | internal/trans_network/csgw_socket.go:31-47 | the gateway gets past its first read if and only if a header that can be a length has come, and a byte of a non-empty body |
| `FrameReaders.InitReadFullIff` | internal/trans_network/csgw_socket.go:31-47 | for an init request that fits the buffer: its plain read is full and nothing is read ahead if and only if no chunk ends inside the body and one ends with it |
| `FrameReaders.ShortInitReadIsPadded` | internal/trans_network/csgw_socket.go:40-47 | when the plain read is short, what is decoded is what came followed by zeros, and the rest of the body is left |
| `FrameReaders.ReadClientFrames` | internal/trans_network/csgw_socket.go:118-153 | the client loop forwards exactly the frames of fresh readers, and panics exactly on a length that `make` refuses |
| `Wire.DecodeFieldsAppend` | internal/trans_network/node_proxy_handler.go:268-269 | concatenated encodings decode as concatenated fields |
| `Wire.DecodeFieldsRoundTrip` | internal/trans_network/csgw_socket.go:143 | any list of fields reads back from its encoding |
| `Messages.ServiceDataRoundTrip` | internal/trans_network/csgw_socket.go:138-144 | the gateways' data message reads back with its id and payload |
| `Messages.SocketInitRoundTrip` | internal/ext_protocols/socks5/apron_client_agent.go:154-156 | so does the init request |
| `Messages.ExtRoundTrip` | internal/ext_protocols/socks5/apron_client_agent.go:186-193 | so does the agents' message |
| `Messages.ServiceRequestReadsAsInit` | internal/trans_network/node_proxy_handler.go:204-206 | a service request decoded as an init request keeps service, request and peer id |
| `Messages.CoalescedMessagesLoseTheFirst` | internal/ext_protocols/socks5/apron_client_agent.go:230-231 | two agent messages decoded as one block give the second content only, without an error |
| `Messages.ExtIsLongerThanContent` | internal/ext_protocols/socks5/apron_agent_server.go:301-308 | a marshalled agent message is longer than its content |
| `WireBytes.FrameBytes` | internal/trans_network/network_helper.go:17-37 | a frame is eight bytes of length, the highest first, and the body |
| `WireBytes.ServiceDataBytes` | proto/models.proto:139-142 | the bytes of the gateways' data message, with its field numbers |
| `WireBytes.SocketInitBytes` | proto/models.proto:163-168 | the bytes of the init request |
| `WireBytes.SocketServiceBytes` | proto/models.proto:173-177 | the bytes of the service request |
| `WireBytes.SessionInitBytes` | internal/ext_protocols/socks5/apron_client_agent.go:154-155 | the bytes of the agent's own init request, which has neither a peer nor a user |
| `WireBytes.ExtBytes` | proto/ext_service.proto:7-22 | the bytes of the agents' message |
| `WireBytes.DataMessageBytes` | internal/ext_protocols/socks5/apron_client_agent.go:186-193 | the bytes of a data message: "socks5", both ids, type 2, the content |
| `WireBytes.ConnectMessageBytes` | internal/ext_protocols/socks5/apron_agent_server.go:198-205 | the bytes of a connect message: type 1 |
| `WireBytes.RequestLayout` | internal/ext_protocols/socks5/apron_client_agent.go:60-126 | the bytes of a request for each kind of address (section 4 of RFC 1928) |
| `WireBytes.ServiceHandshakeLayout` | internal/ext_protocols/socks5/apron_agent_server.go:352-382 | the bytes the service-side agent writes for a destination |
| `WireBytes.OpeningExample` | internal/ext_protocols/socks5/apron_agent_server.go:352-382 | one opening from the client's bytes to the service's, in numbers |
| `WireBytes.LoopbackExample` | internal/ext_protocols/socks5/apron_client_agent.go:98-103 | the loopback address is written ::1 |
| `WireBytes.LocalExample` | internal/ext_protocols/socks5/apron_client_agent.go:98-103 | fe80::a is written so, in lower case |
| `Links.LinkStepKeeps` | internal/trans_network/csgw_socket.go:37-153 | every step of one connection keeps the invariant that says where each byte is |
| `Links.AnnouncementAsks` | internal/trans_network/csgw_socket.go:85-107 | for a client whose first frame is an init request: the gateway announces the service that it names, its own peer id, and a request id of the user, the service and a uuid with dots between; for dot-free names the id splits back into them |
| `Links.ForwardTransparent` | internal/trans_network/node_proxy_handler.go:275-284 | what the client sent is its init frame, the consumed frames and the unread rest; the service socket holds those frames but for the ones under way |
| `Links.ReturnTransparent` | internal/trans_network/node_proxy_handler.go:236-254 | the client socket holds one frame for each read from the service but for those under way; the payloads are a prefix of what the service sent |
| `Tunnel.StepStaysInOwnLink` | internal/trans_network/node_proxy_handler.go:275-291 | although the destination is looked up by an id in the bytes, every step changes its own connection only, as if it were alone |
| `Tunnel.StepKeepsInv` | internal/trans_network/csgw_socket.go:85-116 | every step keeps tables and connections consistent |
| `Tunnel.ReachableInv` | internal/trans_network/csgw_socket.go:85-116 | so they are in every reachable state |
| `Tunnel.DeliveryEffect` | internal/trans_network/node_proxy_handler.go:275-284 | where a delivered message goes and what else it leaves alone |
| `Tunnel.Isolation` | internal/trans_network/node_proxy_handler.go:229-291 | over any interleaving of any number of connections, each one's state is what its own steps produce when run alone |
| `Tunnel.TunnelTransparent` | internal/trans_network/csgw_socket.go:118-153 | in every reachable state and for every connection, both directions: consumed frames re-encoded are what was written to the other side followed by what is under way, so each side holds a prefix of what the other sent |
| `Tunnel.TablesLeadHome` | internal/trans_network/node_proxy_handler.go:229-291 | a registered id leads to the connection that announced it, the same one in both gateways |
| `Gateway.DispatchAll` | internal/trans_network/node_proxy_handler.go:265-301 | dispatching never adds or removes a connection |
| `Gateway.DispatchedUpTo` | internal/trans_network/node_proxy_handler.go:265-301 | exactly the messages before the first that panics are dispatched |
| `Gateway.Node.RegisterClient` | internal/trans_network/csgw_socket.go:115-116 | the client table gains the socket under the request's id |
| `Gateway.Node.HandleSocketInit` | internal/trans_network/node_proxy_handler.go:199-230 | the service table after an init request; it panics exactly on a message or peer id that does not decode, a service without a provider, and a first provider that cannot be dialled |
| `Gateway.Node.HandleMessage` | internal/trans_network/node_proxy_handler.go:267-297 | one message is written as one frame to the one connection its id selects, in the table the protocol selects; the other table and connections stay |
| `Gateway.Node.ProxySocketData` | internal/trans_network/node_proxy_handler.go:260-302 | a whole data stream: each frame read by its own reader and dispatched in order; it always ends in a panic, on the first bad message or else on the end of the stream |
| `Gateway.DeliveryIsDispatch` | internal/trans_network/node_proxy_handler.go:275-284 | the tunnel's delivery step is the handler's dispatch on the service table |
| `Gateway.DeliveryBackIsDispatch` | internal/trans_network/node_proxy_handler.go:288-291 | the tunnel's return delivery is its dispatch on the client table |
| `Gateway.OpeningIsOpenIn` | internal/trans_network/node_proxy_handler.go:226-230 | the tunnel's opening step is the init handler's effect |
| `Gateway.DataPanicsIff` | internal/trans_network/node_proxy_handler.go:275-283 | in any run a data message makes its handler panic if and only if its service connection has not been opened yet |
| `Gateway.ResponsePanicsIff` | internal/trans_network/node_proxy_handler.go:288-290 | and a response if and only if its client has not been entered in the table yet |
| `Gateway.HastyDataPanics` | internal/trans_network/csgw_socket.go:107-150 | there are runs in which a client's first frame overtakes the service connection's opening |
| `Gateway.FramesBothWays` | internal/trans_network/node_proxy_handler.go:229-291 | there are runs in which a frame is delivered each way |
| `Tunnel.HandlersEnabledIff` | internal/trans_network/node_proxy_handler.go:260-291 | in every reachable state a message can be delivered if and only if bytes are under way and its destination has been opened, and a connection opened if and only if it was announced and has not been |
| `Tunnel.SocketsEnabledIff` | internal/trans_network/csgw_socket.go:118-150 | in every reachable state a client's frame can be forwarded if and only if it stands at the front of the socket and fits its chunks, and the service can be read if and only if it has sent something |
| `Tunnel.AnnounceEnabledIff` | internal/trans_network/csgw_socket.go:31-107 | in every reachable state a connection whose init request has arrived can be announced if and only if no chunk ends inside the request's body and one ends with it, it was not announced before, and the id is new |
| `AgentSetup.SeparateIffUndisturbed` | internal/ext_protocols/socks5/apron_client_agent.go:146-156 | for every order of concurrent set-ups: all messages travel on their own session's connection if and only if no other session dials between a session's own dial and its connect message, nor, when it goes on to send data, before its copy loop starts |
| `AgentSetup.InterleavedSetupsCross` | internal/ext_protocols/socks5/apron_client_agent.go:151-210 | two set-ups at the same time are enough to cross messages |
| `AgentSetup.UndisturbedSessions` | internal/ext_protocols/socks5/apron_client_agent.go:151-210 | in an undisturbed run each connection carries its session's messages, complete and in order: init, connect, data |
| `AgentSetup.SessionsEnabledIff` | internal/ext_protocols/socks5/apron_client_agent.go:146-210 | every session can take its steps in order, whatever the others do |
| `Agents.RequestRoundTrip` | internal/ext_protocols/socks5/apron_agent_server.go:186 | the connect request reads back from its encoding |
| `Agents.ReadClient` | internal/ext_protocols/socks5/apron_client_agent.go:165-210 | the copy loop's reads: every byte of the client, in pieces of 1 to 40960 bytes |
| `Agents.SmallChunksAreReads` | internal/ext_protocols/socks5/apron_client_agent.go:166-170 | every chunk of at most 40960 bytes is one read |
| `Agents.LongChunkIsCut` | internal/ext_protocols/socks5/apron_client_agent.go:166-170 | a longer one is cut after 40960 bytes |
| `Agents.SessionInitAsks` | internal/ext_protocols/socks5/apron_client_agent.go:153-156 | the init request decodes to the session's service and the session's id |
| `Agents.SessionIsAnnounced` | internal/trans_network/csgw_socket.go:85-107 | so the gateway asks for that service, under an id that begins with an empty user |
| `Agents.ServeConnection` | internal/ext_protocols/socks5/apron_agent_server.go:249-322 | the service agent's dispatch loop: the connections it opens and the bytes it writes to each, those before a bad message included; it always ends in a panic, on the first bad message or else on the end of the stream, a plain one included |
| `Agents.MessageMeans` | internal/ext_protocols/socks5/apron_agent_server.go:263-317 | what each message does to the connections, and exactly which ones make the agent panic |
| `Agents.ServedUpTo` | internal/ext_protocols/socks5/apron_agent_server.go:259-321 | exactly the messages before the first that panics are served |
| `Agents.UndisturbedSetupSendsSession` | internal/ext_protocols/socks5/apron_agent_server.go:198-224 | an undisturbed set-up puts the session's byte stream on its own connection |
| `Agents.SessionReachesService` | internal/ext_protocols/socks5/apron_agent_server.go:259-316 | in every reachable state of the tunnel, whatever the service agent has read: no panic, a connection for the session's own id only, on it the handshake and then the session's reads in order without a gap |
| `Agents.SocksForwardPath` | internal/ext_protocols/socks5/apron_agent_server.go:259-316 | from the SOCKS5 client's bytes to the service, through both agents and both gateways: the service reads a greeting 5, 1, 0, a version 5 CONNECT to the client's destination, and then a prefix of what the client sent behind its own handshake and the bytes read ahead with it; no other connection is opened |
| `Agents.ConcurrentSessionsReachServices` | internal/ext_protocols/socks5/apron_client_agent.go:146-210 | the same for any number of sessions of one client agent whose set-ups run in any undisturbed order |
| `Agents.ReturnToClient` | internal/ext_protocols/socks5/apron_client_agent.go:213-266 | the return loop writes the contents of exactly the frames that fresh readers return, skips those that do not decode, and panics exactly on a length that `make` refuses |
| `Agents.ResponseReachesClient` | internal/ext_protocols/socks5/apron_client_agent.go:213-251 | if every gateway read returns exactly one agent message, then for every arrival of the frames at the client agent: it reads exactly the messages that have come if and only if no fresh reader drops a byte, if and only if every frame fits its chunks; and then the client gets exactly the contents of these messages |
| `Agents.SharedChunksLoseBytes` | internal/ext_protocols/socks5/apron_client_agent.go:216-251 | when whole response frames arrive together in chunks of at most 4096 bytes, the client gets all bytes if and only if each frame came alone |
| `Agents.DroppedBytesCanDecode` | internal/ext_protocols/socks5/apron_client_agent.go:216-251 | two messages with a request id made for it can arrive so that bytes are dropped and the client's bytes are right all the same, so for arbitrary ids only the messages tell |
| `Agents.LongMessageIsCut` | internal/trans_network/node_proxy_handler.go:238-240 | a message longer than 40960 bytes is never one read, so the condition of `Agents.ResponseReachesClient` cannot hold from it on |
| `Agents.FullReadMakesLongMessage` | internal/ext_protocols/socks5/apron_agent_server.go:288-311 | and a full read of the agent always makes one |
| `Agents.MergedReadsLoseBytes` | internal/ext_protocols/socks5/apron_client_agent.go:230-251 | when reads return whole messages, the client gets all bytes if and only if each read returned just one |
| `Messages.CutMessageCarriesNothing` | internal/ext_protocols/socks5/apron_client_agent.go:230-251 | an agent message cut short anywhere decodes to no content, if at all |
| `Responses.ConnectToService` | internal/ext_protocols/socks5/apron_agent_server.go:358-414 | which bytes of the service the agent takes before it relays and what it leaves on the connection; `Responses.ConnectOkIff` says when it panics |
| `Responses.ConnectOkIff` | internal/ext_protocols/socks5/apron_agent_server.go:358-414 | for every arrival: the agent goes on if and only if the service's first two bytes are 5 and 0, and the chunk behind them begins with 5, has 0 next if it goes on, and names no host of more than 251 bytes |
| `Responses.RefusalIsRefused` | internal/ext_protocols/socks5/apron_agent_server.go:398-401 | a well-formed reply in a chunk is taken for success if and only if it says so, and its name is short |
| `Responses.RelayService` | internal/ext_protocols/socks5/apron_agent_server.go:287-313 | the return loop writes the messages of exactly its reads, in order, without frames |
| `Responses.RelayedAt` | internal/ext_protocols/socks5/apron_agent_server.go:301-307 | each read is the content of one message, under an id of its own |
| `Responses.PiecesAreReads` | internal/trans_network/node_proxy_handler.go:236-241 | messages that arrive in a chunk each are read by the gateway in pieces of 40960 bytes and a last one |
| `Responses.RelaysDataIff` | internal/ext_protocols/socks5/apron_agent_server.go:288-401 | for every arrival: the agent relays exactly what the service sends behind its reply if and only if the reply is a chunk of its own and its name has at most 251 bytes |
| `Responses.BannerIsDropped` | internal/ext_protocols/socks5/apron_agent_server.go:389-391 | service bytes in the chunk of the reply never reach the client |
| `Responses.SplitReplyIsRelayed` | internal/ext_protocols/socks5/apron_agent_server.go:389-391 | the rest of a reply that comes in two parts is relayed in front of the data |
| `Responses.LongMessageLosesBytes` | internal/trans_network/node_proxy_handler.go:238-253 | of a message longer than 40960 bytes that is read on its own the client gets fewer bytes than its content has |
| `Responses.PiecesCarryAllIff` | internal/trans_network/node_proxy_handler.go:238-253 | messages that are each read on their own, in as many reads as it takes, carry all their contents to the client if and only if each is at most 40960 bytes |
| `Responses.FullReadLosesBytes` | internal/ext_protocols/socks5/apron_agent_server.go:288-311 | so a read that fills the agent's buffer always loses bytes |
| `Responses.PiecesReachClientIff` | internal/trans_network/node_proxy_handler.go:236-254 | the same through the tunnel and the client-side agent's loop |
| `Responses.ServiceBytesReachClient` | internal/ext_protocols/socks5/apron_client_agent.go:213-251 | the whole way back: with the reply in a chunk of its own, one read for each message and frames that fit their chunks, the client has a prefix of what the service sent behind its reply, and all of it once every message has come |
| `IpText.IpStringRoundTrip` | internal/ext_protocols/socks5/apron_client_agent.go:91-103 | the text of every IPv4 and IPv6 address reads back as that address, IPv4-mapped taken as IPv4 |
| `IpText.IpStringShort` | internal/ext_protocols/socks5/apron_agent_server.go:378 | that text fits the length byte |
| `IpText.ShortenedIsFirstLongest` | internal/ext_protocols/socks5/apron_client_agent.go:98-103 | the zero groups left out are a longest run and the first of its length (section 4.2 of RFC 5952) |
| `IpText.DottedIff` | internal/ext_protocols/socks5/apron_client_agent.go:90-103 | an address is written with dots if and only if it is IPv4, mapped or not |
| `IpText.GroupsTextLooks` | internal/ext_protocols/socks5/apron_client_agent.go:98-103 | any other has "::" in its text if and only if two neighbouring groups are zero, and then in the place of the first longest run of zero groups |
| `Socks5.HandleGreeting` | internal/ext_protocols/socks5/apron_client_agent.go:22-42 | result, consumed bytes and reply of the greeting |
| `Socks5.GetAddress` | internal/ext_protocols/socks5/apron_client_agent.go:85-118 | result and consumed bytes of the address |
| `Socks5.BuildConnectRequest` | internal/ext_protocols/socks5/apron_client_agent.go:49-129 | result, consumed bytes and reply of the whole handshake |
| `Socks5.HandshakeIgnoresChunks` | internal/ext_protocols/socks5/apron_client_agent.go:49-129 | with full plain reads its outcome depends on the client's bytes alone |
| `Socks5.HandshakeAccepted` | internal/ext_protocols/socks5/apron_client_agent.go:49-129 | every well-formed greeting and request (sections 3 and 4 of RFC 1928) is accepted and understood |
| `Socks5.GreetingIff` | internal/ext_protocols/socks5/apron_agent_server.go:327-341 | a greeting is accepted if and only if it has two bytes and the first is 5 |
| `Socks5.RequestErrors` | internal/ext_protocols/socks5/apron_client_agent.go:63-118 | the error of a refused request |
| `Socks5.RequestUnderstood` | internal/ext_protocols/socks5/apron_client_agent.go:63-128 | and nothing else is: an accepted request is the encoding of what was understood |
| `Handshakes.UnderstoodIffFullReads` | internal/ext_protocols/socks5/apron_client_agent.go:35-128 | for every well-formed greeting and request and every arrival: the handshake gives that request and leaves exactly what follows it if and only if its two plain reads are full |
| `Handshakes.UnderstoodIffUncut` | internal/ext_protocols/socks5/apron_client_agent.go:35-74 | told from the arrival: it is understood if and only if no chunk ends inside the list of methods or inside the first three bytes of the request |
| `Handshakes.NothingReadAheadIff` | internal/ext_protocols/socks5/apron_client_agent.go:50-168 | what the client sends behind its request is what the handshake's reader has buffered, which is dropped, and what is left on the socket; nothing is buffered if and only if a chunk ends with the request |
| `Handshakes.EarlyDataIsDropped` | internal/ext_protocols/socks5/apron_client_agent.go:50-168 | client data in the one chunk of greeting and request is dropped as a whole |
| `Handshakes.NoShorterEncoding` | internal/ext_protocols/socks5/apron_client_agent.go:84-118 | no encoding of an address ends in a shorter encoding of the same text |
| `Socks5.LateMethodBreaksHandshake` | internal/ext_protocols/socks5/apron_client_agent.go:35-36 | a method that arrives late makes a good handshake fail |
| `Socks5.RequestSurvives` | internal/ext_protocols/socks5/apron_agent_server.go:371-382 | every accepted request is re-encoded as a well-formed domain CONNECT that reads back to the same address text and port, no length or port bits lost; it survives whole if and only if it was a version 5 CONNECT |
| `Socks5.ServiceHandshakeUnderstood` | internal/ext_protocols/socks5/apron_agent_server.go:352-383 | all that the service-side agent writes is a greeting 5, 1, 0 and a request that reads back to the address text and the port |
| `Socks5.RequestSurvivesArrival` | internal/ext_protocols/socks5/apron_agent_server.go:371-382 | the same however the client's bytes arrive, with full plain reads |
| `Socks5.AddressMeaningSurvives` | internal/ext_protocols/socks5/apron_agent_server.go:377-379 | the address text that the service gets denotes the client's IP address |
| `Registry.AlwaysConsistent` | internal/trans_network/node.go:163-244 | after any interleaving of local and remote updates and sweeps both maps have the same keys and each service stands under its own id |
| `Registry.Node.RegisterLocalService` | internal/trans_network/node.go:163-181 | new registry and what is published |
| `Registry.Node.RegisterRemoteService` | internal/trans_network/node.go:183-198 | new registry |
| `Registry.Node.OnBroadcast` | internal/trans_network/node.go:128-150 | own and undecodable messages are ignored, others registered for their sender |
| `Registry.Node.DeleteService` | internal/trans_network/node_mgmt_handler.go:75-84 | the service is gone from both maps and its deletion published |
| `Registry.Node.FindInvalid` | internal/trans_network/node.go:215-232 | exactly the ids whose owner is neither this node nor available |
| `Registry.Node.RemoveServices` | internal/trans_network/node.go:235-240 | exactly these ids leave both maps |
| `Registry.Node.UpdatePeers` | internal/trans_network/node.go:207-244 | the nested loops are a filter of both maps: every owner left is this node or available, and nothing of theirs is lost |
| `Registry.Node.LookupService` | internal/trans_network/csgw_http.go:121-141 | "Service data missing" cannot happen; the other outcomes and exactly when; a service found is the one registered under the id |
| `Registry.Node.ListService` | internal/trans_network/node_mgmt_handler.go:36-38 | each service once |
| `Registry.Node.ListByOwner` | internal/trans_network/node_mgmt_handler.go:91-113 | each local, or each remote, service once |
| `Registry.ListingsPartition` | internal/trans_network/node_mgmt_handler.go:36-113 | local and remote listings partition the full one as multisets |
| `Replication.WhatNodesKnow` | internal/trans_network/node.go:128-198 | in every reachable state of any number of nodes: what a node reaches through another is the replay of that one's updates received since it was last swept away, deletions included |
| `Replication.CaughtUpIff` | internal/trans_network/node.go:128-244 | with nothing under way, that equals what the other offers itself if and only if it has published each of those services since the sweep; always so without a sweep |
| `Replication.TwoHomesDiverge` | internal/trans_network/node.go:183-198 | with two homes for one id nodes disagree with nothing under way |
| `Replication.SweptServicesStayLost` | internal/trans_network/node.go:207-244 | a peer swept away once stays unknown although it is available again and still offers its service, with nothing under way |
| `Replication.ReplayIsLast` | internal/trans_network/node.go:163-198 | a replay holds of each id the last update, if that is not a deletion |
| `Replication.StepsEnabledIff` | internal/trans_network/node.go:128-244 | in every reachable state each node can publish, sweep, and receive whatever is on the way |
| `Usage.CountersAreAmounts` | internal/models/usage_record_manager.go:19-103 | in every reachable state each counter, exported or live, is the true amount of its period modulo 2^64 |
| `Usage.UsageConserved` | internal/models/usage_record_manager.go:19-103 | exported plus live is what was recorded, modulo 2^64, and exactly if and only if no period reached 2^64 |
| `Usage.RecordTimes` | internal/models/usage_record_manager.go:28-39 | in every reachable state a record is live if and only if the period since the last export has an event of its user and service; it names them and began with the first of these events, and the report of each export has it with that export's time as its end |
| `Usage.ReportOf` | internal/models/usage_record_manager.go:86-104 | the report of each export is what was live before it |
| `Usage.OneReport` | internal/models/usage_record_manager.go:19-104 | in full: the report of a request, its data both ways and an export |
| `Usage.OneSocketReport` | internal/models/usage_record_manager.go:58-104 | and of a socket: one access and no traffic |
| `Usage.PanicsIff` | internal/models/usage_record_manager.go:43-56 | the only panics: a malformed id, and data without a record |
| `Usage.ShownAfter` | internal/models/usage_record.go:7-11 | an event adds its weight to the counters of its own user and service and to no other |
| `Usage.UsageRecord.DoRecord` | internal/models/usage_record.go:7-11 | the three counters after 64-bit addition |
| `Usage.UsageRecordManager.RecordUsageFromInitHttpProxyRequest` | internal/models/usage_record_manager.go:19-41 | new records and when it panics |
| `Usage.UsageRecordManager.RecordUsageHttpProxyData` | internal/models/usage_record_manager.go:43-56 | new records and when it panics |
| `Usage.UsageRecordManager.RecordUsageFromSocket` | internal/models/usage_record_manager.go:58-82 | new records and when it panics |
| `Usage.UsageRecordManager.ExportAllUsage` | internal/models/usage_record_manager.go:86-104 | the report holds each record once with its end time, and the manager is empty |
| `RequestId.ExtractMeaning` | internal/models/helper.go:49-55 | what is split off is free of dots and stands in front of the id |
| `RequestId.ExtractIff` | internal/models/helper.go:49-55 | an id can be taken apart if and only if it has two dots |
| `RequestId.ExtractOfBuildIff` | internal/trans_network/csgw_http.go:143-144 | a built id splits back into user and service if and only if neither has a dot |
| `RequestId.KeysDistinct` | internal/models/usage_record.go:13-15 | for any ids, usage keys are equal exactly when user and service are |
| `RequestId.KeySplits` | internal/models/usage_record.go:13-15 | the key of dot-free names is the service, a dot and the user |
| `NamePattern.FindAllLeftmostLongest` | internal/models/request_detail.go:43-44 | the matches are what a leftmost, greedy engine promises |
| `NamePattern.WordCharBounds` | internal/models/request_detail.go:33 | digits, letters, underscore and dash are word characters, and none of their neighbours |
| `NamePattern.MatchesAreLongRuns` | internal/models/request_detail.go:33 | they are exactly the maximal runs of eleven or more word characters |
| `NamePattern.ScanFindsAll` | internal/models/request_detail.go:43-44 | one linear pass finds the same matches |
| `NamePattern.ExtractNamesIff` | internal/models/request_detail.go:43-50 | names are found if and only if the whole text has a single such run, and they are its first ten characters and its rest |
| `NamePattern.RunsOfParts` | internal/models/request_detail.go:33 | no run crosses a separator: the long runs of parts are the parts' long runs |
| `RequestPath.MatchAtIsPreferred` | internal/models/request_detail.go:32 | wherever the pattern can match at all it does, in the way a greedy engine prefers |
| `RequestPath.FindPathsLeftmost` | internal/models/request_detail.go:78 | each match is the leftmost there is behind the one before |
| `RequestPath.DetailOfPath` | internal/models/request_detail.go:72-91 | the outcome for every path of the documented shape, with any segment and any rest of the line |
| `RequestPath.ExtractDetailIff` | internal/models/request_detail.go:72-91 | for every path: it is understood if and only if the path without a leading "/ws" has one single match of the pattern, anywhere, and the whole path one single long run; and then as what these cut out |
| `RequestPath.PathRoundTripIff` | internal/models/request_detail.go:72-91 | "/v{n}/{id}{user}/{rest}", with or without "/ws", gives back version, id, user and rest if and only if the rest has no run of eleven word characters |
| `RequestPath.ShortSegmentIsSkipped` | internal/models/request_detail.go:83 | a segment of at most ten characters leaves service and user to the rest |
| `RequestPath.TestPathNamesNoTestkey` | test/node_connection_test.go:84 | the repository's own test URL names another user than its key |
| `RequestPath.AcceptedPathSpells` | internal/models/request_detail.go:78-91 | whatever is accepted holds, on one line, a version from 1 to 9999, a segment and the rest, in this order |
| `RequestPath.RequestDetail.Extract` | internal/models/request_detail.go:52-94 | the fields set on success, and which are already set when it fails |
| `Attribution.RequestIdNamesPath` | internal/trans_network/csgw_http.go:121-144 | in every reachable registry the id of an accepted request splits back into the user and service its path names |
| `Attribution.RequestIdIff` | internal/trans_network/csgw_http.go:111-144 | in every reachable registry a request is forwarded if and only if the service its path names is registered with a provider, and under an id of the user, the service and the uuid |
| `Attribution.UuidsSeparate` | internal/trans_network/csgw_http.go:144 | different uuids make different ids |
| `Attribution.UsageGoesToNamedUser` | internal/models/usage_record_manager.go:19-104 | after any history of accepted requests and exports, exported plus live usage of a user and service is what the requests recorded whose paths name them, modulo 2^64, and exactly if no counter overflowed |
| `Attribution.AcceptedRequestPanicsIff` | internal/models/usage_record_manager.go:43-56 | an accepted request's id never makes accounting panic, only data without a record does |
| `HttpResponses.AnsweredIffInTime` | internal/trans_network/csgw_http.go:85-94 | in any run a client is answered with a body if and only if the service side made it for that request and it arrived after the client began to wait, although the channel is looked up by the id in the message's bytes |
| `HttpResponses.HungIffEarly` | internal/trans_network/node_proxy_handler.go:191 | a client hangs if and only if its response arrived before it began to wait |
| `HttpResponses.EarlyResponseHangs` | internal/trans_network/csgw_http.go:85-94 | there are such runs |
| `HttpResponses.TimelyResponseAnswers` | internal/trans_network/csgw_http.go:85-94 | a response that is waited for is handed over |
| `HttpResponses.EnabledIff` | internal/trans_network/csgw_http.go:85-94 | in every run each request can take each of its stages once, when the one before has been |
| `HttpResponses.SettledForGood` | internal/trans_network/csgw_http.go:85-94 | nothing later frees a hung client or changes an answer |

## Left out

- FrameReaders.ReadClientFrames: the endless retry after an error other than end of file is not modelled as an endless loop, because a torn frame leaves nothing to read and the next read ends it.
- FrameReaders.ReadAllFrames: the frame that the read loop sends on after an error is not modelled, because its consumer stops on the error.
- Gateway.Node.HandleSocketInit: decoding a peer id and dialling are parameters, and the stream that is opened back to the client side is not modelled.
- Agents.ResponseReachesClient: the only-if is stated for the messages read and not for the client's bytes, because for arbitrary request ids these can be right by accident (`Agents.DroppedBytesCanDecode`); whether that can also happen with the ids that the client-side agent makes is not decided here.
- Agents.RequestRoundTrip: the binary codec library is replaced by a small concrete codec, so it does not describe the library's bytes.
- Agents.ServeConnection: connecting to the service is taken to succeed; `Responses.ConnectToService` says when it does, as far as the service's bytes decide it.
- Responses.ConnectToService: the address and port of the reply, used for a log line only, are not decoded.
- AgentSetup.SeparateIffUndisturbed: the read of the shared connection by the return loop is taken together with that of the copy loop, as both happen in one call.
- HttpResponses.AnsweredIffInTime: the table of channels is modelled by the clients' phases, not as a class, because blocking on a channel is a matter of steps; a response is one message on its stream.
- Attribution.UsageGoesToNamedUser: covers request ids built from URL paths; the user of a socket request comes from its init message and can hold dots, and `RequestId.ExtractOfBuildIff` says what that does to its id.
- Usage.UsageRecordManager.ExportAllUsage: the keys are taken in an arbitrary order and the lock of each record is a set member, because each call is one step.
- Replies written to a socket client whose service is unknown or has no provider, and connections refused for it.
- Web sockets, HTTP parsing, the URL sent to the service, headers, cookies and query maps of a request detail.
- The tunnel between more than one pair of gateways at a time; ids differ across pairs as well, but streams are modelled for one pair.
- Closing of connections, and writes to a closed one.
- libp2p, discovery, GossipSub beyond one-hop FIFO queues, logging, configuration, the IPFS and Docker agents.
- Protobuf's limit of 64 bits for a number and its ban of field number 0: the decoder here accepts both.
- UTF-8 validity of protobuf strings, groups and fixed-width protobuf fields, and memory limits.
- Data races on maps that the handlers use without the lock, and time: sleeps are step guards, time stamps are inputs.
