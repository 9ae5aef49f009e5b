# Wiren Board MGE gateway: a Dafny model

This project models the parts of the MGE firmware and of its API tests in which several activities share
state, and proves what holds over every input or every run. `dafny verify dfyconfig.toml` checks all of it.

The model follows the C sources under `main/` and the Python under `api_tests/`. Stateful code is kept
stateful: buffers and tables are arrays, ports and ring buffers are classes, loops are loops with
invariants. Each such method is proved equal to a specification function, and the run-level theorems are
lemmas about those functions. Concurrency appears as events: one event is one stretch of code between two
points where another task can get in.

| Part | Modules |
|---|---|
| TCP stream reassembly, its slot table, its fallbacks and the client receive loops | `Reassembly`, `ReassemblyBuffers`, `OnePass`, `ClientFraming` |
| Gateway transactions, their schedules, and the retry budget of its clients | `Gateway`, `GatewaySchedule`, `GatewayAnswers`, `GatewayPort`, `RetryBudget`, `RetryGroups`, `RetryRefusals`, `RetryGateway` |
| Boot-settled guard and the heap session around it | `BootGuard`, `HeapSession` |
| RTU checksum, stream splitting, sniffer, packet feed | `Crc`, `Wire`, `Splitter`, `Sniffer`, `SnifferPipeline`, `BusTraffic`, `SnifferWire` |
| Register cache and its Modbus server | `RegisterCache`, `CachePool`, `CoilPacking`, `CacheServer`, `CacheHistory`, `CacheFeed` |
| Port manager, the factory clock test and the moves of the cache | `PortManager`, `CacheMoves`, `CacheSource`, `PortTable` |
| Sessions, settings, emulated I/O bus, firmware update, version code | `SessionRing`, `SessionDevice`, `SessionValidity`, `Settings`, `SettingsOrder`, `IoBus`, `IoBusRuns`, `Ota`, `OtaDevice`, `VersionCode` |

`Bytes` and `Options` hold shared definitions. Automatic induction is switched off on every lemma, so each
inductive step is written out.

## Where the code does not keep a promise

The code is modelled as it is. For each of these a lemma exhibits a failing case, and another states exactly
when the promise holds; where only one direction is proved, the item says so.

- A reply from the bus is addressed with whatever pair of socket and generation is pending when it is
  sent, and labelled with whatever transaction id was pending when it was built. A reply that comes after
  the wait was given up, or one overtaken by the worker it released, goes to the next client under the old
  transaction id (`LateReplyGoesToTheNextClient`, `ReleasedWorkerOvertakesTheReply`; exactly when, by the
  order of events: `RightExactlyByPosition`, `TitleKeptExactly`; sufficient discipline:
  `PromptGatewayIsRight`).
- A close voids every queued request, not one. Up to ten clients can need n(n+1)/2 attempts (`BoundIsMet`), and
  for every n a budget of one retry in all, of 2n-1 attempts, or of two attempts per client holds exactly up to
  two clients (`LinearBudgetHoldsExactly`). From eleven
  clients on requests can also be refused, from twelve on even by a prompt worker, but no client is refused
  more than 4n-2 times (`EleventhCanBeRefused`, `TwelfthCanBeRefused`, `RefusalBound`).
- With garbage in the stream, what the reassembler finds depends on how recv() cut it
  (`StrayByteMakesCuttingVisible`). Whatever the cutting, no byte is lost exactly if every header met at a
  frame boundary is plausible (`NothingLostExactly`), and then the cutting does not matter
  (`FeedAllIsScan`); that it matters for every other stream is neither claimed nor true.
- The block receiver of the gateway tests can return the start of the next frame with the one it was asked
  for (`BlocksCanOverrun`; exactly when: `OneFrameExactly`).
- "Settled" does not mean the modes agreed throughout, and "modes unconverged" is returned for a device
  whose modes always agreed (`SettledThroughDisagreement`, `UnconvergedThoughAlwaysAgreeing`; what the loop
  decides: `Classifies` in `Poll`).
- A logout on a full, wrapped session ring reorders the survivors, and the second login after it evicts a
  session that is not the oldest (`RemoveKeepsOrderExactly`, `ReorderingEvictsTheWrongSession`,
  `FewFollowersAndOut`). Over every run, a session is valid exactly if it was not logged out and never had ten
  sessions behind it, where a logout that reorders puts behind it whoever follows in the array (`ValidExactly`);
  if no logout since reorders, these are the newer sessions open at once (`OrderlyValidExactly`). Counting the
  logins that follow is right exactly under the condition of `CountRuleExactly`, over every run, and wrong for
  instance in `PairsLeaveOthersValid`. Sessions of before an
  abnormal reset return with the next software reboot unless somebody logged in
  (`AbnormalResetIsUndoneBySoftReboot`).
- When the cache pool is full, a response stops being stored at its first new address, so later addresses
  the pool does hold keep an older value (`FullPoolKeepsAnOldValue`; exactly when: `PoolIsLatestExactly`).
  Ages wrap after 65536 seconds (`AgeExactly`).
- Messages that arrive without a gap need not come apart where they end: a reply can by chance begin with an intact
  frame of another length (`ReplyCanBeMistaken`; exactly when: `TrafficSplitsExactly`).
- A corrupt frame that reaches a sniffer which has shown nothing yet is dropped
  (`CorruptFirstFrameIsDropped`), and so is any frame whose packet finds the queue full, with its exchange
  (`FullQueueLosesTheFrame`; exactly when one frame is shown: `OnePacketExactly`; exactly when all are, over every
  run: `AllShownExactly`). Packet ids skip one per silent
  timeout (`IdsCountTimeouts`).
- A mode change does not clear the display reason of a disabled port (`DisplaySurvivesBringUp`), claiming
  the cache on one port changes the other port's reasons if it was feeding the cache (`CacheMovesAway`), and
  a failed allocation leaves an overlay without a pool (`PoolFollowsOverlay`). A port runs in its stored mode
  while the test is off exactly under the condition of `ExitRestoresTheModes`, whatever fails; a failed restore
  leaves it down (`FailedRestoreLeavesItDown`).
- A move of the cache means to keep the pool, so that it need not be allocated again. It does exactly if no mode,
  Disabled included, is applied to any port between its two locks; otherwise the pool is freed, and a failed
  allocation then ends a working cache (`MoveKeepsThePoolExactly`, `BringUpInTheGapLosesThePool`). A response of
  the old bus that passed the check before the move can be stored after it (`StragglerOutlivesTheClear`; exactly when the pool mixes two
  buses: `OneBusExactly`). Applying stored cache settings leaves flash and overlays different exactly if a surplus
  key could not be cleared (`ApplyingAgreesExactly`).
- A flash write that fails half-way through an accepted settings request leaves the writes before it in
  place (`PartialWriteExactly`), and can leave two services on one port (`HalfSwapCollides`; exactly which
  requests cannot: `FailurePointsExactly`, over any sequence of them: `NeverCollidesExactly`). An exported
  document that holds an inherited port collision is not accepted back (`ExportImportExactly`).
- The host of the I/O bus misses the level of a pin that first comes up as an output already at its latched
  level, and a reset of the expander (`FirstOutputIsSilent`, `ResetIsNotHeard`; exactly when it has been
  right all along: `MirrorsThroughoutExactly`; exactly when it is right in the end: `MirrorsInTheEndExactly`).
- The numeric version wraps its parts at 256 (`VendorBuildReadsAsCandidate`, `CodesCollideExactly`).

## Where documentation and code disagree

The model follows the code.

- `api_tests/35_test_sniffer_cache_interaction.py` speaks of a short receive timeout while a sniffer reason
  is set; `main/bridge/port_manager.c` sets the timeout by transport mode only (`ShortTimeoutExactly`).
- `README_QEMU.md` says the firmware driving an input pin raises violation 1 and either side operating an
  unconfigured pin raises violation 2; in `main/qemu/virtual_io_qemu.c` a firmware write to an input only
  updates the latch, a firmware write to an unconfigured pin is not seen at all, and violation 1 is raised
  when an input-only pad is configured as an output (`ViolationsExactly`).
- `main/bridge/mbtcp_reasm.c` has a branch for a full buffer without progress; `SlotBuffer.Feed` keeps the
  buffer below its size without it, so it is not modelled.
- `main/bridge/port_manager.c` says that during a move of the cache some port wants the pool throughout, so that
  the sync is idle and the cache is never off; between the two locks no port does, and applying a mode syncs too
  (`MoveKeepsThePoolExactly`).
- `main/wb_test.c` has a branch for ports that cannot be disabled; disabling a port cannot fail, so that
  branch is not modelled.

## Model

| member | source | states |
|---|---|---|
| Reassembly.Reassembles | main/bridge/mbtcp_reasm.c:109-206 | However a stream of well-formed frames and an incomplete tail is cut into chunks, feeding the chunks yields exactly the frames in order and keeps exactly the tail |
| Reassembly.FeedAllIsScan | main/bridge/mbtcp_reasm.c:109-206 | On clean streams feeding chunk by chunk equals one scan of the whole stream |
| Reassembly.EveryByteAccounted | main/bridge/mbtcp_reasm.c:109-206 | On arbitrary bytes and any cutting, each byte was dropped while resynchronising, or lies in exactly one dispatched frame, or is still buffered, in order |
| Reassembly.OnlyWellFormedDispatched | main/bridge/mbtcp_reasm.c:140-190 | Whatever arrives, every dispatched frame has protocol id 0 and exactly its declared length within 8 to 300 bytes |
| Reassembly.FrameInBytes | main/bridge/mbtcp_reasm.c:140-190 | In bytes: a well-formed frame has 8 to 300 bytes, two zeros for the protocol and a length field that counts what follows it |
| Reassembly.NothingLostExactly | main/bridge/mbtcp_reasm.c:109-206 | For every stream and every cutting, the dispatched frames and the buffered tail are the whole stream exactly if every header at a frame boundary is plausible |
| Reassembly.StrayByteMakesCuttingVisible | main/bridge/mbtcp_reasm.c:140-190 | A stray byte before a nine-byte frame: found when both arrive together, lost when the last byte comes separately |
| Reassembly.StrayByteExample | main/bridge/mbtcp_reasm.c:140-190 | Concrete bytes for that case |
| Reassembly.Independence | main/bridge/mbtcp_reasm.c:15-34 | Over every interleaving of receives and closes of other sockets, a connection that holds a slot sees exactly what it would see alone |
| Reassembly.EveryConnectionReassembled | api_tests/21_test_gateway_e2e_multiconn.py:227-236 | A connection that finds a free slot gets exactly its own frames in order and keeps exactly its own tail, whatever the other connections send or close in between |
| Reassembly.CloseForgetsOnlyItself | main/bridge/mbtcp_reasm.c:60-74 | A close frees that connection's slot and discards its tail; every other connection's tail is unchanged |
| Reassembly.RefusedExactlyWhenFull | main/bridge/mbtcp_reasm.c:15-34 | A feed is refused exactly when the socket is negative or holds none of the eight slots while all are taken, and a refusal changes nothing |
| ReassemblyBuffers.SlotBuffer.Feed | main/bridge/mbtcp_reasm.c:109-206 | The in-place append, dispatch and shift loop computes the specified frames and leaves the specified tail in the 300-byte buffer |
| ReassemblyBuffers.SlotBuffer.Dispatch | main/bridge/mbtcp_reasm.c:140-190 | The dispatch loop over the buffer equals the recursive scan, resynchronisation flag included |
| ReassemblyBuffers.Reassembler.FeedSock | main/bridge/mbtcp_reasm.c:109-206 | Feeding a socket through the array of slots is the table step, including the refusal |
| ReassemblyBuffers.Reassembler.CloseSock | main/bridge/mbtcp_reasm.c:60-74 | Closing a socket is the table step |
| ReassemblyBuffers.Reassembler.SlotGet | main/bridge/mbtcp_reasm.c:15-34 | The slot search picks the socket's own slot, else the first free one, else none |
| OnePass.WholeFramesGetThrough | main/bridge/modbus_tcp.c:244-280 | Without a slot, every whole frame of one recv() is queued in order as far as the queue has room, and the fragment behind them is dropped |
| OnePass.SeparateIsSound | main/bridge/modbus_tcp.c:244-280 | Only valid whole frames come out, and together they are a prefix of what came in |
| OnePass.SeparateAndPush | main/bridge/modbus_tcp.c:244-280 | The loop computes that separation |
| OnePass.CacheFallbackExactly | main/bridge/cache_modbus_server.c:372-384 | Without a slot the cache server answers a recv() exactly when it is one frame and nothing else |
| OnePass.CutFrameIgnored | main/bridge/cache_modbus_server.c:372-384 | Without a slot a frame cut short is never answered |
| ClientFraming.Socket.RecvExactly | api_tests/modbus_helpers.py:31-39 | Whatever portions the network delivers, exactly n bytes are taken and the rest is left, or the loop reports closing or timing out |
| ClientFraming.Socket.RecvResponse | api_tests/26_test_fast_modbus_probe_e2e.py:67-87 | Takes exactly the bytes the length field declares, for every chunking, or reports why they never come |
| ClientFraming.TakesExactlyTheFirstFrame | api_tests/26_test_fast_modbus_probe_e2e.py:67-87 | In front of any sequence of frames it returns the first and leaves the others intact |
| ClientFraming.Socket.RecvOneResponse | api_tests/20_test_cache_tcp_framing.py:64-83 | Takes eight bytes and then the rest of the declared length |
| ClientFraming.VariantsAgreeOnFrames | api_tests/20_test_cache_tcp_framing.py:64-83 | In front of a frame both header-first receivers take exactly that frame |
| ClientFraming.RecvInBlocks | api_tests/modbus_helpers.py:42-81 | On every sequence of chunks, quiet turns and a close, with the deadline at any turn: ends at the first turn with a whole frame, at the deadline, or at the close, with the result that belongs to it |
| ClientFraming.OneFrameExactly | api_tests/modbus_helpers.py:42-81 | In front of a frame it returns that frame alone exactly if some recv() ended just where the frame does, and otherwise the frame with what follows |
| ClientFraming.BlocksCanOverrun | api_tests/modbus_helpers.py:42-81 | Any two replies of together at most 256 bytes that arrive together are one result of this receiver |
| ClientFraming.ProbeIsWellFormed | api_tests/26_test_fast_modbus_probe_e2e.py:54-64 | The built probe is one well-formed frame that carries its transaction id |
| ClientFraming.ProbeRecognisedExactly | main/bridge/fast_modbus.c:22-75 | A well-formed frame is taken for a probe exactly when the client's builder makes it |
| ClientFraming.ProbeResponseIsWellFormed | main/bridge/fast_modbus.c:22-75 | The answer is a well-formed frame under the probe's transaction id with the confirmation payload |
| Gateway.StepKeepsSane | main/bridge/modbus_tcp.c:316-339 | Every step keeps the capture rule: until a connection is retired, a queued or adopted fd still means the connection that asked |
| Gateway.GenerationEquality | main/bridge/tcp_server.c:861-913 | Generations are equal exactly when the number of retirements in between is a multiple of 2^32 |
| Gateway.ReplyReachesLatestRequester | main/bridge/modbus_tcp.c:141-229 | A reply leaves exactly when nobody has been retired since the latest fetched request was received and its close hook has not run; it then reaches that still open connection |
| Gateway.LocalAnswersAreRight | main/bridge/modbus_tcp.c:542-549 | One local answer reaches the right connection under the right ids, or nobody, exactly by whether somebody was retired since; how often over a run is `LocalAnsweredOnce` |
| GatewayAnswers.LocalAnsweredOnce | main/bridge/modbus_tcp.c:542-549 | From power-up, over every interleaving: a request the gateway answers itself is delivered exactly once in the whole run if nobody was retired between its receipt and the answer, and never otherwise |
| GatewayAnswers.AnsweredAtMostOnce | main/bridge/modbus_tcp.c:141-229 | From power-up, over every interleaving: no request, local or to the bus, is ever answered twice |
| GatewayAnswers.NoAnswerWithoutReply | main/bridge/modbus_tcp.c:141-229 | A request that goes to the bus has at most one delivery for each reply built for it |
| GatewayAnswers.RunAnswers | main/bridge/modbus_tcp.c:141-229 | Over every run the deliveries are, one for one and in order, the local answers and the sent replies that the capture rule lets out |
| GatewayAnswers.StepAnswers | main/bridge/modbus_tcp.c:141-229 | Each event makes one delivery or none, under the transaction id of the request or of the reply, to the connection captured with it or adopted last |
| GatewayAnswers.FetchedInOrder | main/bridge/modbus_tcp.c:442-468 | Over every run the fetches take the requests in the order in which they found room in the queue, none left out, each as it was pushed and with the retirements counted before its bytes were received |
| Gateway.WorkerStep | main/bridge/modbus_tcp.c:442-549 | What the worker is at after every event: what gives it a request, what frees it, and that nothing else does |
| GatewaySchedule.RightExactlyByPosition | main/bridge/modbus_tcp.c:141-229 | From power-up, over every interleaving: every delivery is right exactly if, for each reply sent while the last fetched client has not hung up and nobody was retired since its request, that last fetch was for the reply's connection and the last conversion before the reply was built, no clearing hang-up after it, was of a request with its transaction id |
| GatewaySchedule.TitleKeptExactly | main/bridge/modbus_tcp.c:475-493 | A transaction id nobody else uses is on the reply exactly if neither another conversion nor a clearing hang-up lies between the request's conversion and the reply |
| GatewaySchedule.AddressedThroughout | main/bridge/modbus_tcp.c:442-468 | At every point of every run the pending socket is that of the last fetched request, or cleared exactly if its client has begun to hang up |
| GatewaySchedule.EntitledThroughout | main/bridge/modbus_tcp.c:351-372 | At every point of every run the pending transaction id and the id of a reply under way are those of the last conversion, or zero after a clearing hang-up |
| Gateway.PromptGatewayIsRight | api_tests/24_test_gateway_advanced.py:361-401 | From power-up, over every interleaving in which replies are prompt, every delivery answers the connection, transaction and unit that asked |
| Gateway.FewRetirementsNeverWrap | main/bridge/tcp_server.c:287-304 | A run with fewer than 2^32 retirements never wraps the generation under a request |
| Gateway.LateReplyGoesToTheNextClient | main/bridge/modbus_tcp.c:513-531 | From every state in which another client is next, a reply after the wait was given up reaches that client under the old transaction id |
| Gateway.ReleasedWorkerOvertakesTheReply | main/bridge/modbus_tcp.c:196-229 | The same for a reply in time whose released worker fetches before it is sent |
| Gateway.OtherClientCanBeNext | main/bridge/modbus_tcp.c:442-468 | Power-up leads to such a state |
| GatewayPort.Port.FetchTcpRequest | main/bridge/modbus_tcp.c:442-468 | Popping a request and adopting its socket and generation is the model's fetch |
| GatewayPort.Port.PushWithClient | main/bridge/modbus_tcp.c:285-298 | Queueing a frame with the sampled generation is the model's push; it fails exactly on a full queue |
| GatewayPort.Port.SampleGeneration | main/bridge/modbus_tcp.c:316-339 | The generation attached to a recv() is that of the retirements so far |
| GatewayPort.Port.SendToCapturedClient | main/bridge/tcp_server.c:861-913 | One frame with these ids is written to that socket, behind what was written before, exactly when the 32-bit generation matches and the socket is a client's; otherwise nothing is |
| GatewayPort.Port.AnswerSelfRequest | main/bridge/modbus_tcp.c:542-549 | Is the model's local answer: what is written to sockets grows by exactly its deliveries, one frame for each |
| GatewayPort.Port.MakeRtuRequest | main/bridge/modbus_tcp.c:475-493 | Is the model's conversion: only here the pending transaction id is set |
| GatewayPort.Port.BuildTcpReply | main/bridge/modbus_tcp.c:141-200 | Is the model's first half of a reply: takes the pending transaction id and releases the worker |
| GatewayPort.Port.SendTcpReply | main/bridge/modbus_tcp.c:200-229 | Is the model's second half: uses the pair pending by then, and writes exactly its deliveries, one frame for each |
| GatewayPort.Port.OnTcpConnClose | main/bridge/modbus_tcp.c:351-372 | Is the model's close hook |
| GatewayPort.Port.RetireClientConn | main/bridge/tcp_server.c:287-304 | Is the model's retirement, with the generation counted modulo 2^32 |
| GatewayPort.Port.RegisterClientConn | main/bridge/tcp_server.c:261-266 | Is the model's admission, which does not move the generation |
| RetryBudget.AttemptBound | api_tests/21_test_gateway_e2e_multiconn.py:111-120 | In every run of any number n of clients, refused requests aside: at most n(n+1)/2 attempts in all and n by any one client |
| RetryBudget.FewClientsBound | api_tests/21_test_gateway_e2e_multiconn.py:111-120 | Up to ten clients, or eleven if the worker leaves no request lying, nobody is refused, so these are bounds on all attempts |
| RetryRefusals.RefusalBound | main/bridge/modbus_tcp.c:285-298 | However many clients there are, no client is refused more than 4n-2 times or needs more than 5n-2 attempts |
| RetryRefusals.EleventhCanBeRefused | main/bridge/modbus_tcp.c:285-298 | With eleven clients a run refuses one while the worker is idle |
| RetryRefusals.TwelfthCanBeRefused | main/bridge/modbus_tcp.c:442-468 | With twelve a run with a prompt worker refuses one |
| RetryGateway.RetriesAreGatewayRuns | main/bridge/tcp_server.c:861-913 | Every run of these clients, whatever transaction id and unit each attempt carries, is a run of the gateway from power-up that delivers exactly to the clients counted as served, in order, each time under the id and unit of that client's own last attempt and as the answer to it |
| RetryBudget.TwoClientBudget | api_tests/21_test_gateway_e2e_multiconn.py:207-222 | For two clients that is three attempts in all and two each |
| RetryBudget.BoundIsMet | api_tests/21_test_gateway_e2e_multiconn.py:207-222 | For every n up to ten some run needs all n(n+1)/2 attempts and n by its last client |
| RetryGroups.LinearBudgetHoldsExactly | api_tests/21_test_gateway_e2e_multiconn.py:207-222 | For every n, all runs of n clients stay within one retry in all exactly if n is at most two, and exactly then within 2n-1 attempts and within two attempts per client |
| RetryGroups.LiftsRun | api_tests/21_test_gateway_e2e_multiconn.py:111-120 | A run of up to ten clients is also a run among any number of others that are through or still to come |
| BootGuard.InitSignal | api_tests/00_test_heap_session.py:428-455 | The signal test is true exactly for a non-disabled mode or a bound cache port, and fails exactly when its only possible proof is missing |
| BootGuard.Poll | api_tests/00_test_heap_session.py:508-546 | On every sample trace the loop returns what the classifier decides at the first deciding sample, within 121 samples |
| BootGuard.WaitBootSettled | api_tests/00_test_heap_session.py:458-546 | The whole wait, with its early exits for missing settings and for no possible signal |
| BootGuard.ClassifiesOnce | api_tests/00_test_heap_session.py:508-546 | A trace has at most one classification |
| BootGuard.UsableMeansInitBegan | api_tests/00_test_heap_session.py:237-246 | For every device silent before initialisation and every sampling, a usable verdict implies initialisation had begun by the last sample |
| BootGuard.AgreementAloneCertifiesAPreInitDevice | api_tests/00_test_heap_session.py:320-328 | A never initialised device with both ports disabled that mode agreement alone would accept, and the loop does not |
| BootGuard.SteadyAgreementBoundsTheFall | api_tests/00_test_heap_session.py:371-377 | If modes agree from the first ready sample on, the accepting window has at most twelve intervals and hides at most 12288 bytes, under the tolerance |
| BootGuard.SettledThroughDisagreement | api_tests/00_test_heap_session.py:533-537 | A trace settled through fifteen seconds of disagreement and a fall of more than three tolerances |
| BootGuard.UnconvergedThoughAlwaysAgreeing | api_tests/00_test_heap_session.py:538-546 | A trace classified as modes unconverged although the modes agreed at every sample |
| HeapSession.FreeHeapQuiescent | api_tests/00_test_heap_session.py:549-562 | The largest reading, or failure if one failed |
| HeapSession.Config.TestHeapBaseline | api_tests/00_test_heap_session.py:583-727 | What is published however the run is cut short |
| HeapSession.Config.TestHeapNoLeak | api_tests/00_test_heap_session.py:732-782 | The decision from the published fields alone |
| HeapSession.SessionStaysSound | api_tests/00_test_heap_session.py:596-619 | Over any number of runs cut anywhere: a verdict exists exactly if the body began, and a usable verdict comes with the baseline recorded under it |
| HeapSession.LeakTestDecidesSoundly | api_tests/00_test_heap_session.py:734-760 | The ordering assertion fires exactly if the baseline test never began; a comparison is made exactly if the last run completed, against that run's baseline |
| HeapSession.ComparedExactly | api_tests/00_test_heap_session.py:732-782 | Spelled out: which last wait, readings and cuts lead to a comparison, and that a leak is more than 16384 bytes |
| HeapSession.ComparedMeansInitBegan | api_tests/00_test_heap_session.py:734-760 | A comparison implies the device had begun initialisation when the wait ended |
| Crc.ComputeCrc | main/bridge/modbus_helpers.c:20-41 | The bit loop computes the checksum register |
| Crc.FrameOkIsResidue | main/bridge/sniffer.c:117-127 | A frame ends in its own checksum exactly when the checksum of the whole frame is zero |
| Crc.Seal | main/bridge/modbus_helpers.c:137-161 | Every body becomes an intact frame, and is recovered from it, once its checksum is appended low byte first |
| Crc.GluedFramesAreNoticed | main/bridge/sniffer.c:838-850 | Two intact frames in one buffer never pass as one |
| Crc.AlteredByteIsNoticed | main/bridge/modbus_helpers.c:20-41 | An intact frame with one byte changed is never intact |
| Wire.GluedFramesAreNotIntact | main/bridge/sniffer.c:838-850 | The same on byte strings |
| Splitter.SplitPartitions | main/bridge/stream_splitter.c:160-279 | Nothing is lost, repeated or reordered by splitting |
| Splitter.SplitCount | main/bridge/stream_splitter.c:160-279 | At most sixteen pieces |
| Splitter.SplitSettles | main/bridge/stream_splitter.c:160-279 | Every piece but the last is an intact frame or a run of 0xFF, and a piece marked valid is intact |
| Splitter.StreamSplit | main/bridge/stream_splitter.c:160-279 | The loop computes that split |
| Splitter.RequestsSplitExactly | main/bridge/stream_splitter.c:74-154 | Up to fifteen requests back to back come apart into exactly those requests |
| BusTraffic.LengthIsTold | main/bridge/stream_splitter.c:19-154 | For every message of the protocol, Modbus and Fast Modbus, written out field by field: its length is told from its first bytes, whatever follows |
| BusTraffic.OthersAreNotTold | main/bridge/stream_splitter.c:19-154 | Of other function codes and subcommands no length is told |
| BusTraffic.CutExactly | main/bridge/stream_splitter.c:160-279 | The next cut is after the message exactly if the table asked first, of replies or of requests, does not by chance read an intact frame of another length off the bytes |
| BusTraffic.ReplyCanBeMistaken | main/bridge/stream_splitter.c:160-279 | A reply of five data bytes that end in a checksum of what comes before is cut after its eighth byte |
| BusTraffic.TrafficSplitsExactly | main/bridge/stream_splitter.c:160-279 | Up to fifteen messages of any kinds without a gap come apart into exactly those messages if and only if none is mistaken so |
| BusTraffic.ScanFindsTheShortest | main/bridge/stream_splitter.c:160-279 | The checksum scan finds an intact start of 4 to 265 bytes if there is one, and none longer than the shortest |
| BusTraffic.GivenUpExactly | main/bridge/stream_splitter.c:160-279 | A buffer is given up on exactly if neither table finds an intact frame at its start and no start of it up to 265 bytes is one |
| BusTraffic.GluedIsTakenApart | main/bridge/sniffer.c:805-888 | Such a buffer is dispatched as exactly its messages, in order |
| BusTraffic.GluedExchangeIsShown | main/bridge/sniffer.c:805-888 | An exchange that comes without a gap is shown as master and slave, a write and its echo included |
| Sniffer.ClassifiesByShape | main/bridge/sniffer.c:253-355 | A frame is called request or response exactly when it has that shape of the application protocol and not the other |
| Sniffer.RegisterShapesAreDisjoint | main/bridge/sniffer.c:286-303 | A register read request can never satisfy the response test |
| Sniffer.NeverStuck | main/bridge/sniffer.c:735-780 | Over every run, whatever timer commands and packets are lost, a waiting port has its timer armed, and the timer returns it to idle |
| Sniffer.OnePacketExactly | main/bridge/sniffer.c:614-780 | A frame yields one packet carrying it exactly when the port has a reason, the frame has four bytes, the port has shown something or the frame tells its direction, and the queue has room |
| Sniffer.FullQueueLosesTheFrame | main/bridge/sniffer.c:707-732 | A frame whose packet finds the queue full is lost and the exchange given up, though the port counts as synchronised |
| Sniffer.CorruptFirstFrameIsDropped | main/bridge/sniffer.c:382-388 | A corrupt frame before anything else leaves no trace |
| Sniffer.EveryFrameShownOnce | main/bridge/sniffer.c:614-780 | Over every stream of frames, expiries, lost timer commands, full queues and reasons coming and going, what is shown is every frame that came while the port had a reason and found room in the queue, from the first telling one on, once and in order |
| Sniffer.AllShownExactly | main/bridge/sniffer.c:614-780 | That is all that could be heard exactly if no heard frame finds the queue full |
| Sniffer.SilentWhileOff | main/bridge/sniffer.c:614-626 | A port without reasons shows nothing, whatever arrives and expires, and stays synchronised if it was |
| Sniffer.IdleLabels | api_tests/38_test_sniffer_slow_response.py:703-712 | On an idle port, after a timeout too, an intact unicast response is a slave packet and anything else intact is a master packet that starts a wait |
| Sniffer.IdleShows | main/bridge/sniffer.c:368-488 | For every frame on an idle port, the packet and the whole state after it: Fast Modbus by its subcommand, corrupt as the other side than last, broadcast as master, response as slave, and anything else as a master that is waited for |
| Sniffer.WaitingShows | main/bridge/sniffer.c:490-604 | For every frame on a waiting port, the packet and the whole state after it: a broadcast leaves the wait; a request, or an intact frame of no known shape from another address or function, is a second master that is waited for; anything else is the reply |
| Sniffer.ExchangesAlternate | main/bridge/sniffer.c:583-600 | Any number of exchanges, echoed writes and unknown functions included, come out as master and slave in turn, whatever timer commands are lost |
| Sniffer.UnansweredWritesAreMasters | main/bridge/sniffer.c:583-600 | Any number of unanswered frames of no known shape, none with address and function of the one before, come out as masters, whether the timer ran out in between or not |
| Sniffer.CorruptFramesAlternate | main/bridge/sniffer.c:382-388 | Corrupt frames on an idle port are shown as master and slave in turn, starting with the other side than the last packet |
| Sniffer.StripMeans | main/bridge/sniffer.c:214-232 | Leading arbitration bytes, however many, are taken off exactly in front of a Fast Modbus frame of at least four bytes |
| Sniffer.DeviceSubcommands | main/bridge/sniffer.c:234-243 | The five subcommands that come from a device |
| Sniffer.TimeoutMeans | main/bridge/sniffer.c:177-209 | A timer that runs out leaves the port idle, and reports the unanswered request exactly if there is one, the port has a reason and the queue has room |
| Sniffer.DisableMeans | main/bridge/sniffer.c:1336-1385 | Taking a reason away changes that reason only, unless it is the last: then the exchange ends and the timer is stopped |
| Sniffer.FromReset | main/bridge/sniffer.c:1211-1256 | A fresh port shows, over every run, what came while it had a reason, from the first telling frame on |
| Sniffer.ExchangeIsPaired | main/bridge/sniffer.c:368-604 | A request and its reply come out as master and slave whatever came before and whatever timer commands are lost, and leave the port idle |
| SnifferPipeline.BufferConserved | main/bridge/sniffer.c:805-888 | Every byte of a received buffer is dispatched once and in order, less stripped arbitration, whatever hints the port gives |
| SnifferPipeline.DispatchedWhole | main/bridge/sniffer.c:805-888 | A buffer of eight bytes or fewer, one intact frame, and what still begins with arbitration are dispatched whole |
| SnifferPipeline.SnifferPort.Process | main/bridge/sniffer.c:805-888 | The loop dispatches exactly those frames to the state machine and queues exactly its packets |
| SnifferPipeline.SnifferPort.ProcessFrame | main/bridge/sniffer.c:614-780 | The update in place, timer commands and queue included, is the state machine's step |
| SnifferPipeline.SnifferPort.Update | main/bridge/sniffer.c:660-780 | The update in place and the timer commands are the decision of the state machine, whose labels `IdleShows` and `WaitingShows` state frame by frame |
| SnifferPipeline.SnifferPort.EnableReason | main/bridge/sniffer.c:1306-1334 | Is the state machine's enable |
| SnifferPipeline.SnifferPort.DisableReason | main/bridge/sniffer.c:1336-1385 | Is the state machine's disable: a wait is abandoned exactly when the last reason goes |
| SnifferPipeline.SnifferPort.TimerCallback | main/bridge/sniffer.c:177-209 | Is the state machine's expiry: always back to idle, a timeout packet exactly for a pending request of a port with a reason |
| SnifferPipeline.ClientSeesEveryPacket | main/bridge/sniffer.c:912-1012 | The web client gets every packet once and in order, never a timeout, each under its number modulo 2^32 |
| SnifferPipeline.IdsDiffer | main/bridge/sniffer.c:976-985 | Ids are different among any 2^32 packets and grow until the counter wraps |
| SnifferWire.ClientSeesTheWire | api_tests/38_test_sniffer_slow_response.py:3-15 | From received buffers to a connected client, full queues included: each buffer is dispatched as frames that are its bytes less arbitration, or ignored whole while the port is off; the client is sent exactly the frames that come while the port is on and find room, in order, from the first telling one on, and all that could be heard exactly if none finds the queue full; buffers of plain frames that find room are sent byte for byte |
| SnifferWire.ProcessIsReceived | main/bridge/sniffer.c:805-888 | What the receive loop does with a buffer is that step |
| SnifferPipeline.IdsCountTimeouts | main/bridge/sniffer.c:976-985 | An id counts the packets and the silent timeouts before it |
| SnifferPipeline.ReadReachesTheCache | main/bridge/sniffer.c:912-950 | On a port with a reason, whatever it was doing, an overheard read exchange becomes two packets; they reach the cache as that request and that response if it is enabled and the port has the cache reason, and not at all otherwise |
| SnifferPipeline.BusReadIsServed | api_tests/31_test_cache_modbus_server_e2e.py:99-104 | End to end: the packets that a port, in any state and with any timer commands lost, makes of a read exchange are what a TCP client then reads from the cache until it expires, if the port has the cache reason and the cache is enabled; otherwise the cache is left as it was |
| RegisterCache.LatestMeans | main/bridge/cache_multimaster.c:431-622 | An observed read sets exactly its addresses in its slave's table, and nothing else |
| RegisterCache.StoreMeans | main/bridge/cache_multimaster.c:182-212 | A store updates the entry or appends one; it fails exactly for a new key in a full pool |
| RegisterCache.StoreAllExactly | main/bridge/cache_multimaster.c:514-550 | A response is taken in whole exactly when the latest-value map still fits 4096 entries afterwards |
| RegisterCache.FullPoolKeepsAnOldValue | main/bridge/cache_multimaster.c:534-547 | With a full pool a response whose first address is new changes nothing |
| RegisterCache.PoolIsLatestExactly | main/bridge/cache_multimaster.c:381-622 | Over every sequence of traffic the pool is the latest-value map throughout exactly as long as at most 4096 addresses were observed since the last clear |
| CachePool.Pool.StoreValue | main/bridge/cache_multimaster.c:182-212 | The scan of the dense prefix and the write in place are the specified store |
| RegisterCache.StoreAllTakes | main/bridge/cache_multimaster.c:524-562 | What is stored of a response is a prefix of it, and if that is not all, the pool is full and the next address is not in it |
| CachePool.Pool.StoreResponse | main/bridge/cache_multimaster.c:524-562 | The loop over the slots is the specified store, and the number it reports dropped is what that store leaves out |
| CachePool.Pool.LookUpValue | main/bridge/cache_multimaster.c:626-679 | The lookup with 16-bit stamps is the specified lookup; in elapsed seconds it is `ServedUntilTimeout` |
| CachePool.Pool.Wipe | main/bridge/cache_multimaster.c:355-379 | A clear empties the pool |
| CoilPacking.UnpackPack | main/bridge/cache_modbus_server.c:176-237 | Packed coils decode back for every count |
| CoilPacking.PackThenRead | main/bridge/cache_modbus_server.c:176-237 | Bit i of the packed bytes is coil i, lowest bit first, and the padding is zero |
| CoilPacking.PackUnpackExactly | main/bridge/cache_multimaster.c:565-600 | The slave's coil bytes come back unchanged exactly when its padding was clean |
| CoilPacking.PackInPlace | main/bridge/cache_modbus_server.c:206-230 | The loop that sets bits in a cleared buffer computes the packing |
| CacheServer.LookUpMeans | main/bridge/cache_multimaster.c:626-679 | A lookup is absent, stale or the latest value, read off the map; stale in elapsed seconds is `ServedUntilTimeout` |
| CacheServer.AgeExactly | main/bridge/cache_multimaster.c:656-666 | The age is the elapsed time modulo 65536 seconds, and the timeout is right exactly when the value is younger than that or its age modulo 65536 is past the timeout |
| CacheServer.GatherMeans | main/bridge/cache_modbus_server.c:96-155 | A range read succeeds exactly when every address is present and fresh, and returns the latest value of each |
| CacheServer.GatherFails | main/bridge/cache_modbus_server.c:96-155 | Otherwise the first such address decides: absent is 0x02, stale is 0x0B |
| CacheServer.RequestInBytes | main/bridge/modbus_helpers.c:106-135 | In bytes: what the framing check accepts, for every length; the sixteen-bit sum does no harm |
| CacheServer.DispatchedAreRequests | main/bridge/cache_modbus_server.c:365-382 | Of at most 300 bytes, exactly the frames the reassembler dispatches pass that check |
| CacheServer.ExceptionsMean | main/bridge/cache_modbus_server.c:252-354 | Over every frame, to a slave or to the gateway itself: which frames are ignored, and exactly which are answered with exception 0x01 and 0x03 |
| CacheServer.ReadsMean | main/bridge/cache_modbus_server.c:252-354 | With the pool changing between lookups: a read of a slave is answered with data exactly when it is legal, the cache is on and every address is present and fresh when it is looked up, with what the pool then holds for each |
| CacheServer.SelfReadsMean | main/bridge/mb_device.c:395-472 | A read of the gateway itself is answered, whatever the cache, exactly when its count and range are legal and every address is one of the gateway's registers; otherwise with the exception that belongs to it |
| CacheHistory.ReadsReturnTheLatest | main/bridge/cache_modbus_server.c:96-155 | After any traffic from power-up, and with more of it between the lookups: a read returns given values exactly if each is the latest observed at its address by its own lookup and has not expired |
| CacheHistory.ReferenceIsObserved | main/bridge/cache_multimaster.c:381-622 | The latest-value map holds, for every address, exactly what an observer of that address alone would have written down |
| CacheHistory.LookUpIsObserved | main/bridge/cache_multimaster.c:626-679 | A lookup after any traffic that fits the pool gives that observer's last value, or stale, or nothing |
| CacheHistory.ServedUntilTimeout | main/bridge/cache_multimaster.c:626-679 | In seconds, after any traffic that fits the pool: stale exactly if there is a timeout and the seconds since the value was heard, modulo 65536, reach it; for 65536 seconds a value is served exactly until its timeout is over |
| CacheHistory.ObservedExactly | main/bridge/cache_multimaster.c:381-622 | From the frames alone: an address holds exactly the value in the last response that directly follows, responses of fewer than four bytes aside, a read of 1 to 125 registers or 1 to 2000 coils with that address in it, from the same slave with the same function and the right byte count, unless a clear came since |
| CacheFeed.ServedFromTheLastPair | main/bridge/sniffer.c:912-950 | For every sequence of packets that fits the pool: a lookup finds a value exactly if it is in the last two packets in a row that were an intact read of the address and its answer, and they are fresh |
| CacheFeed.LearnedExactly | main/bridge/sniffer.c:912-950 | An address is learned from such a pair of neighbours and from nothing else: a timeout, a damaged frame or any other packet in between ends the request |
| CacheFeed.FedIsRun | main/bridge/sniffer.c:912-950 | Feeding packets is stepping the cache through these events |
| CacheServer.RegistersRoundTrip | main/bridge/cache_modbus_server.c:96-155 | Each register read out of a payload is the value put in |
| CacheServer.RegistersServedVerbatim | main/bridge/cache_modbus_server.c:96-155 | Register bytes overheard are the bytes served |
| CacheServer.PayloadVerbatim | main/bridge/cache_modbus_server.c:176-237 | The payload served equals the payload overheard, except for unclean coil padding |
| CacheServer.OverheardThenRead | main/bridge/cache_multimaster.c:431-622 | An exchange followed by a read of the same range before expiry gives the same values |
| CacheServer.BuildRegisterPayload | main/bridge/cache_modbus_server.c:96-155 | The register loop returns the specified payload or the specified exception |
| SessionRing.LiveIsQueued | main/auth.c:100-108 | The sessions found in the array are exactly those of the eviction queue |
| SessionRing.AddPushes | main/auth.c:92-98 | A login appends to the eviction queue and drops the oldest when ten are live |
| SessionRing.RemovePacks | main/auth.c:51-68 | A logout leaves the survivors in array order |
| SessionRing.RemoveKeepsOrderExactly | main/auth.c:110-121 | A logout keeps the order of logins exactly when the ring is not full or the index sits where compaction does not reorder |
| SessionRing.ReorderingEvictsTheWrongSession | main/auth.c:51-68 | Otherwise, for every such ring and session, the second login from then evicts a session that is not the oldest |
| SessionDevice.RingIsQueueExactly | api_tests/33_test_auth_settings.py:579-626 | Over every run of logins, logouts and software reboots the array is the queue throughout exactly when every logout met that guard |
| SessionDevice.RebootRestores | main/auth.c:71-81 | A software reboot brings back the saved ids, and the saved index exactly if it is one of the ten slots, otherwise 0; the saved copy stays |
| SessionDevice.LoginsKeepTheLastTen | api_tests/33_test_auth_settings.py:579-626 | Logins and software reboots leave the last ten sessions |
| SessionValidity.ValidExactly | main/auth.c:92-121 | Over every run of logins, logouts and software reboots, reordering logouts included: a session is valid exactly if it was not logged out and ten sessions never stood behind it |
| SessionValidity.OrderlyValidExactly | main/auth.c:92-121 | If no logout since its login reorders: exactly if it was not logged out and never had ten newer sessions open at once |
| SessionValidity.CountRuleExactly | api_tests/33_test_auth_settings.py:579-626 | Over every such run, counting the logins that follow is right exactly if fewer than ten followed and it was neither logged out nor had ten behind it, or ten followed and it was or had |
| SessionValidity.OrderlyCountRule | api_tests/33_test_auth_settings.py:579-626 | If no logout since reorders, that is exactly: fewer than ten followed and it was not logged out, or ten did and it was, or ten of them were open at once |
| SessionValidity.ValidIffFewerThanTenFollowed | api_tests/33_test_auth_settings.py:266-338 | After any run, reordering logouts included: a session since whose login nobody logged out is valid exactly if fewer than ten logins followed, reboots in between included |
| SessionValidity.PairsLeaveOthersValid | main/auth.c:110-121 | Any number of logins, each logged out again, leave an older session valid |
| SessionValidity.FewFollowersAndOut | main/auth.c:51-68 | Twelve logins, any logout and two logins end the eleventh session after three further logins, or the twelfth after two |
| SessionDevice.LogoutUndoesLogin | main/auth.c:110-121 | A login and its logout on a ring that is not full leave the device as it was |
| SessionDevice.LogoutAfterTwelveLogins | main/auth.c:51-68 | After twelve logins into a fresh device, and similar counts, whoever logs out breaks the order |
| SessionDevice.AbnormalResetLogsEverybodyOut | main/auth.c:205-243 | Right after an abnormal reset no session is valid |
| SessionDevice.AbnormalResetIsUndoneBySoftReboot | main/auth.c:205-243 | An earlier session is valid after a later software reboot exactly if nobody logged in in between |
| SessionDevice.SessionBuffer.DefragSessionBuf | main/auth.c:51-68 | The compaction loop packs the nonzero ids in order and sets the index behind them |
| SessionDevice.SessionBuffer.SaveSessionBuf | main/auth.c:84-89 | The saved copy equals the buffer |
| SessionDevice.SessionBuffer.LoadSessionBuf | main/auth.c:71-81 | The buffer equals the saved copy, with an index out of range replaced by zero |
| SessionDevice.SessionBuffer.AddSessionId | main/auth.c:92-98 | Is the model's login |
| SessionDevice.SessionBuffer.SessionIdExists | main/auth.c:100-108 | Finds an id exactly if it is in the array |
| SessionDevice.SessionBuffer.FindAndRemoveSessionId | main/auth.c:110-121 | Is the model's logout |
| PortManager.BootedKeeps | main/bridge/port_manager.c:656-831 | Every state the device can start up in satisfies the invariant below |
| PortManager.RunKeepsInv | main/bridge/port_manager.c:366-538 | In every reachable state, half-way through a cache move too: at most one overlay, cache reason exactly for an overlay on an open port, pool exactly for an overlay unless a move is before its sync or the allocation failed, timeout by mode, DE line of an open port held low exactly if its transmitter is off, and the test's promises, its lines included |
| PortManager.TxCannotReachTheTest | main/settings_update.c:313-329 | A TX setting applied on top of a test that holds the ports changes nothing |
| PortManager.FrozenStep | main/bridge/port_manager.c:891-968 | While the ports are frozen a mode request is refused and changes nothing, and no other event changes a stored mode or gives up the hold on the ports |
| PortManager.AnswerMeans | main/bridge/port_manager.c:891-968 | Frozen is answered exactly to a request to be stored while the ports are frozen, and then nothing changes; accepted exactly if the mode came up and, if it was to be stored, could be, and then the port runs in it and flash says so; any other answer leaves flash as it was |
| PortManager.TestHoldsThePorts | main/bridge/port_manager.c:1252-1319 | From freeze to thaw, over every interleaving: once both ports are held they stay disabled, and stored modes change only by a settings write |
| PortManager.ParkedUntilUart | api_tests/13_test_ports.py:345-385 | Port 2's DE line is low from being parked until its UART takes it |
| PortManager.LinesAreAccountedFor | main/wb_test.c:123-270 | Over every run: a closed port has nothing left of its UART or of TX being off; its DE line is driven by the test, port 1's high while it runs and port 2's low once parked, or by nobody |
| PortManager.TxAppliedExactly | main/bridge/serial.c:406-476 | A TX setting takes effect exactly on an open port, unless giving the line back to the UART fails, and changes the flag and the line only |
| PortManager.TestGoesRound | main/wb_test.c:272-374 | In every reachable state the test moves by its own steps only, one stage at a time, past the running one if the waveform does not start |
| PortManager.FrozenStages | main/bridge/port_manager.c:1252-1289 | In every reachable state the ports are frozen exactly from the first stage of the test to the fifth |
| PortManager.TestCanEnd | main/wb_test.c:272-374 | Wherever the test stands in a reachable state, as many steps of its own as there are stages left take it off |
| PortManager.ExitRestoresTheModes | main/wb_test.c:272-374 | Over every interleaving, whatever bring-ups, rollbacks and writes fail, tests entered and left any number of times: while the test is off the stored mode is what was last written since the last attempt to bring the port in line, and the port runs in what that attempt left or was released; so it runs in its stored mode exactly if these agree |
| PortManager.BroughtAlikeExactly | main/bridge/port_manager.c:891-968 | Such an attempt leaves the two alike exactly if it worked and was saved, or there was nothing to change |
| PortManager.FailedRestoreLeavesItDown | main/wb_test.c:346-372 | A restore that fails leaves its port down with its stored mode kept, and the ports unfrozen |
| PortManager.IoBusFollowsLastApply | main/settings_update.c:332-366 | Whatever else happens, a test running or not, the I/O-bus line holds what the setting was at the last apply that worked, and agrees with the setting exactly if the last write since says the same |
| PortManager.ModeChangeReasons | main/bridge/port_manager.c:891-968 | A mode change, rolled back or not, clears the display reason exactly if the port was up, arms only the cache reason and leaves the other port alone |
| PortManager.MarksExactly | main/bridge/port_manager.c:478-538 | Over every event of every reachable state: a display reason changes only by whoever displays, or by what takes the port down while it is up; the stored TX setting only by a write |
| PortManager.DisplaySurvivesBringUp | main/bridge/port_manager.c:478-487 | A display reason on a disabled port outlives the change that brings it up |
| PortManager.ShortTimeoutExactly | main/bridge/port_manager.c:376-421 | The short timeout tells a running sniffer exactly when being passive does; reasons never change it |
| PortManager.PassiveWithoutReason | main/bridge/port_manager.c:397-408 | A passive port fresh from boot has the short timeout and no reason |
| PortManager.PortsAreIndependent | api_tests/13_test_ports.py:947-958 | Display, apply and release on one port leave the other unchanged |
| CacheMoves.CacheMovesAway | main/bridge/port_manager.c:1024-1161 | Of the steps of a move only the release touches the other port, whose reasons change exactly if it was feeding the cache |
| CacheMoves.PoolFollowsOverlay | api_tests/11_test_cache.py:149-153 | Whatever happens between its steps, a move ends with the overlay where it was to go and nowhere else, and with a pool exactly for an overlay unless the last needed allocation failed |
| CacheMoves.ApplyingAgreesExactly | main/bridge/port_manager.c:1175-1250 | Whatever saves fail and whatever happens in between, applying the stored cache settings makes overlays and flash agree exactly if not both ports were asked for, or the surplus key was cleared, there or with the release |
| CacheMoves.MoveKeepsThePoolExactly | main/bridge/port_manager.c:1037-1052 | Taking the cache over from the other port keeps the pool throughout exactly if no mode, Disabled included, is applied to any port between the two locks |
| CacheMoves.BringUpInTheGapLosesThePool | main/bridge/port_manager.c:1084-1095 | From every state between the two locks, a bring-up and a failed allocation leave the overlay without the pool it had |
| CacheMoves.OverlaysStay | main/bridge/port_manager.c:264-280 | Everything but a move leaves the overlays alone, and changes the pool exactly if it syncs it |
| CacheSource.OneBusExactly | main/bridge/port_manager.c:1097-1123 | Over every interleaving of responses, moves and bring-ups, the pool never comes to mix two buses exactly if no response is stored after its port lost the cache with no clear or free to come |
| CacheSource.EachResponseOnce | main/bridge/cache_multimaster.c:431-622 | Over every run, each response that passes the check is stored or dropped exactly once, except the one still on its way |
| CacheSource.OwnBusWhenIdle | main/bridge/port_manager.c:1026-1034 | With no move under way that means every value is from the port that has the cache |
| CacheSource.StragglerOutlivesTheClear | main/bridge/cache_multimaster.c:431-470 | From every state with a port feeding the cache, a response checked before a move and stored after it leaves a value of the old bus |
| PortTable.Manager.CacheSyncGlobal | main/bridge/port_manager.c:264-280 | The loop over the ports brings the pool in line with the overlays |
| PortTable.Manager.PortDeinitMode | main/bridge/port_manager.c:478-538 | Is the model's take-down |
| PortTable.Manager.PortInitMode | main/bridge/port_manager.c:366-476 | Is the model's bring-up |
| PortTable.Manager.PortSetModeImpl | main/bridge/port_manager.c:891-968 | Is the model's mode change, rollback and refusal included, and its answer, whose meaning is `AnswerMeans` |
| PortTable.Manager.ApplySettingsTo | main/bridge/port_manager.c:1290-1319 | Is the model's re-application of stored settings |
| PortTable.Manager.CacheOverlayApply | main/bridge/port_manager.c:999-1019 | Is the model's overlay change on one port |
| PortTable.Manager.ReleaseOthers | main/bridge/port_manager.c:1075-1086 | The loop that releases the other holder is the model's release |
| PortTable.Manager.CacheMove | main/bridge/port_manager.c:1024-1161 | Release, claim, the single sync and the clear, without anything in between, are the move's four steps |
| PortTable.MoveAloneIsARun | main/bridge/port_manager.c:1024-1161 | These are a run of the model |
| PortTable.Manager.DecideCache | main/bridge/port_manager.c:1175-1250 | The loops over stored keys and holders choose the model's move and clear the surplus key |
| PortTable.Manager.SetTxDisabled | main/bridge/serial.c:406-476 | Is the model's TX setting on an open port |
| Settings.PostMeans | main/settings_manager.c:788-962 | From request and store alone: a request is refused, changing nothing, exactly if an item to be stored is invalid or it takes part in a collision; if it succeeds, every item to be stored is, all other fields stay. To be stored is every item, but no Wi-Fi item while Wi-Fi is or becomes permanently disabled, and never a false permanent-disable flag |
| Settings.ItemOkMeans | main/settings_manager.c:208-298 | An item is valid exactly if its JSON kind is that of its field, a number fits 32 bits, and the validator accepts the value |
| Settings.WifiIsStored | main/settings_manager.c:893-905 | A valid Wi-Fi item is stored on a device whose Wi-Fi is not permanently disabled |
| Settings.WifiIsGone | main/settings_manager.c:893-905 | Once Wi-Fi is permanently disabled, a Wi-Fi item is ignored, valid or not, and the flag cannot be cleared |
| Settings.PartialWriteExactly | main/settings_manager.c:862-935 | After a failed write the store is untouched exactly if every write before it repeated what was there |
| Settings.NoNewCollision | main/settings_manager.c:428-509 | After a successful request every colliding pair of listeners collided before and was not touched |
| SettingsOrder.FailurePointsExactly | main/settings_manager.c:862-935 | An accepted request leaves no two active services on one port wherever a write of it may fail, exactly if for no two listeners and no port everything that makes them hold it is right before or made right, with all that becomes right written before anything that becomes wrong |
| SettingsOrder.NeverCollidesExactly | api_tests/11_test_cache.py:562-604 | From a store without collisions, through any sequence of requests each failing anywhere or not at all: no two active services ever share a port exactly if every accepted request is orderly in that sense where it is made |
| Settings.FactoryPortsDiffer | main/config.h:13-52 | The factory ports do not collide whatever else is set |
| Settings.HalfSwapCollides | main/settings_manager.c:862-935 | A failure between the two writes of a port swap leaves both services on one port |
| Settings.ExportImportExactly | api_tests/03_test_settings.py:719-768 | Posting the exported document back is accepted exactly when no two active listeners share a port, and then changes nothing |
| Settings.ValidatePortCollisions | main/settings_manager.c:428-509 | The pairwise loop accepts exactly when no touched listener collides |
| Settings.ValidateItems | main/settings_manager.c:208-298 | The loop accepts exactly when every item has its type and passes its validator |
| Settings.Manager.ProcessRequest | main/settings_manager.c:788-962 | Validation and the write loop are the specified request, whose meaning is `PostMeans` |
| IoBus.DumpMirrors | main/qemu/virtual_io_qemu.c:170-189 | A new peer that hears the dump knows every expander pin and every configured pin |
| IoBus.StepTruthfulExactly | main/qemu/virtual_io_qemu.c:193-250 | Every event leaves the host's knowledge true, except exactly a reset of expander pins that are not low |
| IoBus.MirrorStepExactly | main/qemu/virtual_io_qemu.c:280-354 | From a complete mirror an event leaves a complete mirror, except exactly that reset and a pin that silently comes up as an output |
| IoBusRuns.MirrorsThroughoutExactly | README_QEMU.md:165-207 | Over every run, the mirror is complete after every event exactly if no event is one of those two |
| IoBusRuns.MirrorsInTheEndExactly | README_QEMU.md:165-207 | After every run that starts with a dump, the host is right about every pin exactly if each configured pin was configured at the last dump or has reported its level since, and each expander pin reset while high has changed or been dumped since |
| IoBusRuns.ReportsExactly | main/qemu/virtual_io_qemu.c:280-394 | An event puts a pin's level on the wire exactly if the level changes, the pin becomes an input, or a UART takes over a pin whose register differs from its line |
| IoBusRuns.FirstOutputIsSilent | main/qemu/virtual_io_qemu.c:280-288 | A fresh board that makes pin 4 an output leaves the host without its level |
| IoBusRuns.ResetIsNotHeard | main/qemu/virtual_io_qemu.c:193-213 | Any pin reset while high is believed high, and still is after being set low |
| IoBus.RecordRoundTrip | main/qemu/virtual_io_qemu.c:474-502 | Encoded E and G records parse back, with or without newline; D and V records are refused |
| IoBus.HostLeavesOutputsAlone | README_QEMU.md:165-190 | A datagram never changes an output, nor any direction |
| IoBus.HostDrivesInputs | main/qemu/virtual_io_qemu.c:440-468 | A host write to an input puts that level on its line, is echoed exactly if that changes it, and touches nothing else |
| IoBus.HostIsRefused | main/qemu/virtual_io_qemu.c:440-468 | Any other host write changes nothing and gets one record with its cause, 0 on an output and 2 on a pin nobody configured; a pin that is not there gets none |
| IoBus.DirectionMeans | main/qemu/virtual_io_qemu.c:295-354 | A pin takes the direction it is given unless its pad cannot drive: an input floats high, an output shows its register, a pin given up keeps its line; register and other pins stay |
| IoBus.FirmwareDrives | main/qemu/virtual_io_qemu.c:368-394 | A firmware write lands in the register of a configured pin, and on the line exactly of an output |
| IoBus.FirmwareLeavesInputsAlone | main/qemu/virtual_io_qemu.c:368-394 | The firmware never changes the level of a pin that stays an input |
| IoBus.StaysWired | main/qemu/virtual_io_qemu.c:157-166 | From power-up on, only pads with an output driver are ever outputs |
| IoBus.ViolationsExactly | main/qemu/virtual_io_qemu.c:295-468 | Over every event, a violation is reported exactly for a refused operation, the UART's included, under its own cause, and neither direction nor level of that pin changes |
| IoBus.VirtualIo.ExpanderSetLevel | main/qemu/virtual_io_qemu.c:223-250 | The pin loop sets the masked pins and reports exactly the changes in order |
| IoBus.VirtualIo.SendFullDump | main/qemu/virtual_io_qemu.c:170-189 | The loops send the specified dump |
| IoBus.VirtualIo.NativeSetDirection | main/qemu/virtual_io_qemu.c:295-354 | Is the model's direction change |
| IoBus.VirtualIo.NativeApplyFromHost | main/qemu/virtual_io_qemu.c:440-468 | Is the model's host write |
| Ota.ReceiveAndWrite | main/ota_handler.c:161-244 | The loop ends at the first call that completes the image, makes the silence limit long, is an error, brings a bad descriptor or cannot be flashed, with the result that belongs to it; a complete image is all chunks in order |
| Ota.ReceivesOnce | main/ota_handler.c:161-244 | For every sequence of receive results that end and its result are unique |
| Ota.DescriptorDecides | main/ota_handler.c:203-222 | An upload is refused for its descriptor exactly at its first data, if that is shorter than 480 bytes or the descriptor is wrong; an image that came through began with a good one |
| Ota.StallIsExact | main/ota_handler.c:182-194 | A client given up on has just been silent for the limit, for the first time and not longer |
| Ota.SilenceWithinBudget | main/ota_handler.c:25-38 | The silence tolerated is the budget rounded down to whole windows |
| Ota.ToleranceSeparatesWindows | api_tests/22_test_ota.py:52-66 | For every window and every limit of at least two, no other whole-second window falls into the tolerance |
| Ota.HalfAWindowIsNotEnough | api_tests/22_test_ota.py:52-60 | Half a window alone would let four seconds pass for five |
| OtaDevice.StepSafe | main/ota_handler.c:284-393 | Every step of an upload, each received chunk and a power cut with torn flash included, keeps the running slot and the slot to be booted valid images and what the handler's slot holds known |
| OtaDevice.AlwaysBootable | README.md:411-415 | Through any interleaving of uploads, failures and power cuts at any step the running and the boot slot hold valid images |
| OtaDevice.StepKeepsSlots | main/ota_handler.c:142-157 | No step but a reboot changes the running slot, and the boot pointer moves only when it is set, to the other slot |
| OtaDevice.PostOpensExactly | main/ota_handler.c:284-393 | A post gets the handler exactly if it is authorised, has the right content type and finds the handler idle; any other leaves the device as it is |
| OtaDevice.NamedImageSurvives | main/ota_handler.c:345-393 | From the moment the boot pointer names a new image, whatever is posted, neither slot changes, and the reboot runs that image |
| OtaDevice.OnlyWholeUploadsAreNamed | main/ota_handler.c:247-263 | What the boot pointer is moved to is a valid image that is, byte for byte, all chunks of an upload nothing ended before |
| OtaDevice.UploadDecidedByTrace | main/ota_handler.c:161-244 | From what its receives return: an upload leaves exactly the image of the receive loop in the other slot, or fails with boot pointer and running slot as they were |
| OtaDevice.CompleteUploadRunsIfValid | main/ota_handler.c:247-342 | A complete upload that meets no failure runs after the reboot exactly if the chip accepts it |
| VersionCode.DecodeCode | main/bridge/mb_device.c:190-216 | Every version whose parts fit is recovered from its code |
| VersionCode.CodeDecode | main/bridge/mb_device.c:190-216 | Every 32-bit number is the code of a version that fits |
| VersionCode.CodeIsMonotone | README.md:112-115 | Codes are ordered as releases are, with candidates before the release before vendor builds |
| VersionCode.CodesCollideExactly | main/bridge/mb_device.c:206-211 | Two versions share a code exactly when their parts agree modulo 256 |
| VersionCode.VendorBuildReadsAsCandidate | main/bridge/mb_device.c:206-211 | The 128th vendor build reads as the first candidate |
| VersionCode.WordOrdersAgree | main/bridge/mb_device.c:316-323 | Both register word orders reconstruct the same number |

## Left out

- Sockets, HTTP, WebSocket and UDP transport; FreeRTOS scheduling below the level of the events; NVS encoding; heap allocation other than the failures named as inputs.
- Bus frames that answer no transmitted request, and the checks of `modbus_rtu_check_response`: replies in `Gateway` are taken to be intact answers to some request sent earlier.
- Sending on the gateway's descriptor can also fail because its lock is busy or the socket errors; such a reply counts as not sent.
- RetryBudget.AttemptBound: every client waits equally long, and every request that gets in is answered within that time; local requests and slaves that do not answer are not modelled here.
- RetryRefusals.RefusalBound: the bound 4n-2 is not claimed to be met.
- RetryBudget.BoundIsMet: for more than ten clients n(n+1)/2 is a bound on the attempts that get in, not claimed to be met.
- Reassembly.NothingLostExactly: which streams with garbage happen to give the same frames for every cutting is not characterised.
- Sniffer.NeverStuck: a frame is handled as one step, so a timer that expires inside it, or a reason that goes inside it, is taken to do so before or after it.
- CacheServer.SelfReadsMean: what the gateway's own registers hold is a parameter; of them only the version number is modelled, in `VersionCode`.
- RegisterCache.PoolIsLatestExactly: one port feeds the cache, and a response is stored in one step; enabling, disabling and moving the cache, and a response that races them, appear in `CacheMoves` and `CacheSource`, where the pool is only known by the buses its values come from.
- PortManager.RunKeepsInv: the sniffer module is taken to be initialised, a bring-up is one step at the moment of its sync, and V-out, busy monitoring and the boot-time normalisation of stored overlays are not modelled.
- CacheSource.OneBusExactly: whether a response matches a pending request is left open, and requests are not modelled there.
- CacheMoves.ApplyingAgreesExactly: the keys are read and the surplus one cleared in one step.
- Settings.PostMeans: the individual validators are a parameter, fractional JSON numbers are not modelled, and neither are the warnings attached to a response.
- SessionValidity.ValidExactly: a session is told by its id, so the run is split at the last login of that id.
- IoBus.MirrorStepExactly: datagrams are taken to arrive, and the time before the bus is initialised is taken to have no host.
- OtaDevice.StepSafe: the chip's image check is a function of the bytes in the slot; writing the boot pointer is atomic, and bootloader rollback is not modelled.
- The log-scanning helpers `_sessions_restored_after_reboot`, `_wait_device_up`, `_stall_serial_evidence` and `_collect_echo` of the API tests are not modelled.
