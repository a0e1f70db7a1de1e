# DrivePower: a verified model

DrivePower is a set of Go services around an OCPP charging protocol, a small hand-written WebSocket layer and a Python
station simulator. This project models the parts whose correctness depends on order, loss and interleaving, and proves
what they keep. `dafny verify dfyconfig.toml` checks everything.

How the model is laid out:

- `Charging` is the transaction protocol as a step machine: any number of connections, one shared transaction store, and
  requests in flight to sessions, billing and telemetry that may be served late, never, or with the reply lost, and a
  restart that loses the store. Runs are arbitrary sequences of labels; a label that is not enabled changes nothing.
  `ChargingIdentity`, `ChargingReadings`, `ChargingLedger`, `ChargingLoss`, `ChargingTariff`, `ChargingCalls` and
  `ChargingEnergy` prove what every run keeps.
  `Handlers` holds the handlers as methods over objects, station state included; each is shown to be a run of that
  machine. `Meter`, `Billing` and `SessionTable` are the arithmetic, the tariff rule and the SQL statements they share.
- `Simulator` steps the simulator's coroutines between their awaits; `EndToEnd` runs its wire through the handlers, and
  `RowEnergy` says for any wire when a session row holds the right energy.
- `SessionCache` is the sessions service, table then cache, under interleaved requests, expiry and failures.
- `WsBytes`, `WsFrames`, `WsOutcomes`, `WsConn` and `WsWriters` are the WebSocket codec: byte specification and theorems, the
  exact language of every outcome of a read, the imperative read and write, and concurrent writers.
- `Pumps`, `PumpProgress`, `Registry` and `Correlation` are one connection's reader, writer and cleanup, why they stop and
  what they deliver, the station registry, and request/response matching.
- `Telemetry`, `Config`, `ConfigKeys` and `StationState` are energy totals, the environment loader, the keys it looks up, and
  the in-memory station state.
  `Options` is the one shared datatype.

Energy is held in whole Wh and money in reals. Outcomes of calls, clocks, strconv and
what decoding makes of a payload are parameters.

Where the code does less than its documents or the standards say, the model follows the code: a ping ends a read instead of
being answered (section 5.5.2 of RFC 6455), reserved bits are ignored, Stop reads and deletes its context under separate
locks, a repeated Stop overwrites the session's energy with 0, closing an older connection unregisters a newer one, a
successful MeterValues gets no CALLRESULT, and a Stop leaves the connector marked Charging. Each has its condition or
its run below.

## Model

| member | source | states |
|---|---|---|
| Meter.EnergyExactIff | backend/services/ocpp-server/internal/handlers/stop_transaction.go:34-36 | the int64 subtraction gives the register growth if and only if the true difference fits in int64; otherwise it is 2^64 less, which is negative; from a non-negative start it is always exact |
| Meter.NegativeStartOverflows | backend/services/ocpp-server/internal/handlers/stop_transaction.go:34-36 | a concrete overflow: meterStart -1 and the largest meterStop report the most negative energy |
| Billing.MakeBillSound | backend/services/billing-service/internal/service/billing_service.go:37-60 | billing refuses exactly session 0 and the absence of any usable tariff; otherwise the row charges the tariff in force: a positive active price as it is, 1 for an active price that is not positive, the default when there is no row; amount = kWh * price |
| Handlers.BillingService.CreateTransaction | backend/services/billing-service/internal/service/billing_service.go:37-71 | appends exactly one row for that session and energy at the tariff in force, or refuses and appends nothing, and says exactly when |
| SessionTable.UpsertKeeps | backend/services/sessions-service/internal/repository/session_repo.go:23-48 | the upsert keeps ids positive, distinct and unchanged, keeps every row, and leaves the row active |
| SessionTable.CompleteKeeps | backend/services/sessions-service/internal/repository/session_repo.go:51-72 | completing keeps every row and every id |
| SessionTable.RowIffInserted | backend/services/sessions-service/internal/repository/session_repo.go:23-48 | after any statements there is a row exactly for the transactions inserted, and the id sequence has advanced once per insert, conflicting or not |
| SessionTable.LastInsertShows | backend/services/sessions-service/internal/repository/session_repo.go:23-48 | a row shows the station and connector of its last insert, and is active exactly when no update followed that insert |
| SessionTable.FirstInsertNames | backend/services/sessions-service/internal/repository/session_repo.go:23-48 | a row's id is the sequence's value at the first insert of its transaction |
| SessionTable.LastFinishShows | backend/services/sessions-service/internal/repository/session_repo.go:51-72 | a row's energy is that of the last update after its first insert, and 0 when there is none |
| ChargingIdentity.StepIdentified | backend/services/ocpp-server/internal/handlers/start_transaction.go:36-56 | every step of the protocol keeps: whatever session id a handler, a reply, the store or a reading holds for a transaction is that row's id |
| ChargingIdentity.IdsNeverChange | backend/services/sessions-service/internal/repository/session_repo.go:23-48 | between any two points of any run no row disappears and no session id changes |
| ChargingReadings.SessionIdentity | backend/services/ocpp-server/internal/clients/sessions_client.go:91-127 | over every run with lost calls, lost replies and restarts: non-zero ids in the store are row ids, transactions have distinct ids, and each telemetry row is filed under its transaction's row id and goes back to a MeterGet of its own that found the context open with that id |
| ChargingReadings.EveryRowArrivedOpen | backend/services/ocpp-server/internal/handlers/meter_values.go:24-40 | the label at the run position a row carries is a MeterGet of exactly that transaction and value that found the context stored with exactly that session id, and no two rows come from one MeterGet |
| ChargingLedger.RowsPaidFromLatestStart | backend/services/ocpp-server/internal/handlers/stop_transaction.go:30-62 | in every run each ledger row belongs to a Stop, is billed from the meterStart and session id of the latest Start of that transaction before it, and no two rows belong to one Stop |
| ChargingLedger.ConsumedTwiceIff | backend/services/ocpp-server/internal/handlers/stop_transaction.go:32-38 | in every run a context is consumed by two Stops if and only if a Stop reads it while another connection is between its Get and its Delete of it |
| ChargingLedger.BillsBoundedByStarts | backend/services/ocpp-server/internal/handlers/stop_transaction.go:30-62 | without such an overlap a session's billing rows never outnumber the Starts stored for its transaction |
| ChargingLedger.OneConnectionNeverOverlaps | backend/services/ocpp-server/internal/ws/connection.go:60-81 | if each transaction's Stops come over one connection, no two overlap |
| ChargingLedger.OneConnectionBoundsBills | backend/services/ocpp-server/internal/handlers/stop_transaction.go:30-62 | so in every interleaving, with lost calls and restarts, one connection per transaction bounds its billing rows by its Starts |
| ChargingLoss.LostUnreadIff | backend/services/ocpp-server/internal/handlers/stop_transaction.go:32-38 | in every run a Start's context has left the store unread if and only if, while it was stored and unread, a restart, a newer Start of the transaction or a Stop's Delete came |
| ChargingLoss.DeleteLosesNewerStart | backend/services/ocpp-server/internal/handlers/stop_transaction.go:32-38 | a Delete that loses a context belongs to a Stop that had read the transaction's context before the lost one was stored |
| ChargingLoss.LostStartsAreNeverBilled | backend/services/ocpp-server/internal/handlers/stop_transaction.go:51-62 | a Start whose context was lost unread is never billed, however the run goes on |
| ChargingTariff.RowsChargeTheTariffInForce | backend/services/billing-service/internal/service/tariff_service.go:30-46 | in every run each ledger row charges the tariff found at the very label that served it, its insert went through, and rows stand in the order of their labels, one to a label |
| ChargingTariff.RecordsIff | backend/services/billing-service/internal/service/billing_service.go:37-71 | a step adds a row if and only if billing serves a bill in flight with a session, a usable tariff and a working insert, and then the row for that call |
| ChargingCalls.ServedAtMostOnce | backend/services/ocpp-server/internal/clients/sessions_client.go:60-127 | in every run no posted request is served by two labels |
| ChargingCalls.TableIsServed | backend/services/sessions-service/internal/repository/session_repo.go:23-72 | in every run the sessions table is what the served requests, in order, make of an empty one |
| ChargingCalls.RestartLosesOnlyMemory | backend/services/ocpp-server/internal/service/transaction_store.go:14-23 | a restart empties the store and ends the handlers; rows, ledger, readings and requests in flight stay |
| ChargingEnergy.LedgerConservation | backend/services/ocpp-server/internal/handlers/stop_transaction.go:32-62 | for non-negative registers, total billed energy is the register growth summed over the consumed contexts billing recorded, each with a positive session id; rows have positive price, non-negative amount, amount = kWh * price |
| ChargingEnergy.OverlapBillsTwice | backend/services/ocpp-server/internal/handlers/stop_transaction.go:32-38 | a concrete run: one Start, two overlapping Stops, two billing rows |
| Handlers.TransactionHandlers.StartTransaction | backend/services/ocpp-server/internal/handlers/start_transaction.go:25-63 | leaves exactly the upserted row, the connector marked Charging and the stored context with the id the call gave (0 when lost), answers with the transaction id, refuses a malformed payload with no effect, and is a run of the step machine |
| Handlers.TransactionHandlers.MeterValues | backend/services/ocpp-server/internal/handlers/meter_values.go:18-48 | files the reading under the open context's session id or changes nothing, never returns a payload, and is a run of the step machine |
| Handlers.TransactionHandlers.ConsumeContext | backend/services/ocpp-server/internal/handlers/stop_transaction.go:30-38 | returns the context's session id and energy (0 and 0 without one) and deletes the context |
| Handlers.TransactionHandlers.StopTransaction | backend/services/ocpp-server/internal/handlers/stop_transaction.go:24-67 | deletes the context, completes the row with the energy, bills a positive session, marks the station Available, and is a run of the step machine |
| Handlers.AnswerStart | backend/services/ocpp-server/internal/ocpp/router.go:62-97 | a StartTransaction CALL is answered with a CALLRESULT naming the transaction id - the one sent, or the generated one when none was sent - under which its context is stored, status Accepted, or with a CALLERROR and no effect when its payload does not decode |
| Handlers.AnswerMeterValues | backend/services/ocpp-server/internal/handlers/meter_values.go:18-48 | run through the handler, a MeterValues CALL never gets a CALLRESULT, and gets an error exactly when its payload does not decode |
| Handlers.AnswerStop | backend/services/ocpp-server/internal/handlers/stop_transaction.go:66-67 | a StopTransaction CALL whose payload decodes is confirmed whatever became of its calls and even when there was nothing to stop |
| Handlers.StartThenStop | backend/services/ocpp-server/internal/handlers/stop_transaction.go:64 | after a Start on a connector and a Stop the station state holds the station Available and the connector still Charging |
| RowEnergy.RowEnergyRightIff | backend/services/ocpp-server/internal/handlers/stop_transaction.go:30-47 | for every wire of frames, in order or not, and whatever calls fail: once the last Stop that had something to stop is recorded, the row holds its energy if and only if no other Stop of the transaction was recorded since, or that energy is 0 |
| RowEnergy.RepeatedStopZeroesTheRow | backend/services/sessions-service/internal/repository/session_repo.go:52-58 | its instance: a second recorded Stop overwrites the row's energy with 0, which is wrong unless it was 0, and bills nothing |
| RowEnergy.UnrecordedStopKeepsRows | backend/services/ocpp-server/internal/handlers/stop_transaction.go:40-50 | a Stop the sessions service does not record leaves the whole table as it was |
| Handlers.StopRun | backend/services/ocpp-server/internal/handlers/stop_transaction.go:30-62 | the machine has a run whose effect is exactly that of the sequential Stop, for every fate of its calls |
| Handlers.StartRun | backend/services/ocpp-server/internal/handlers/start_transaction.go:36-56 | the same for Start, with the request lost or the reply lost |
| Handlers.MeterRun | backend/services/ocpp-server/internal/handlers/meter_values.go:24-40 | the same for MeterValues |
| Handlers.TransactionStore.Set | backend/services/ocpp-server/internal/service/transaction_store.go:25-29 | stores the context |
| Handlers.TransactionStore.Get | backend/services/ocpp-server/internal/service/transaction_store.go:32-37 | returns the context if there is one |
| Handlers.TransactionStore.Delete | backend/services/ocpp-server/internal/service/transaction_store.go:40-44 | removes the context |
| Simulator.RunConforms | station_simulator.py:230-308 | at every interleaving of the coroutines the wire holds, per transaction, one start at 0, then readings that never fall, then at most one stop, which repeats the last register |
| Simulator.RegistersAreDeliveredEnergy | station_simulator.py:230-308 | in every run each frame was sent by its own label: a reading or stop of a transaction carries exactly the sum of the energy delivered on its connector since that transaction's start |
| Simulator.StepSends | station_simulator.py:230-308 | a label adds to the wire exactly when it starts or stops a session or wakes an energy task of a connector with a transaction, and then exactly that frame |
| Simulator.SessionRuns | station_simulator.py:285-308 | whatever is delivered, the energy task goes on, with one reading for every delivery |
| Simulator.SessionStops | station_simulator.py:259-283 | the stop carries all that was delivered, cancels the energy task and frees the connector |
| Simulator.QuickRestartDoublesTasks | station_simulator.py:230-257 | a start, a stop and a start before the first start's frame is out leave two energy tasks running on one connector, of which a stop ends only the later |
| EndToEnd.EnergyAgreesEndToEnd | station_simulator.py:230-308 | for every simulator run, server progress, tariffs that change from frame to frame and any lost readings: each stopped transaction's meterStop is the energy delivered, its row is completed with it, exactly one ledger row holds it at the tariff in force at that Stop, and telemetry holds exactly the readings not lost, MAX - MIN at most meterStop and MAX equal to it when none was lost |
| EndToEnd.WireFollows | backend/services/ocpp-server/internal/handlers/stop_transaction.go:30-57 | the server state after any in-order wire is determined, per transaction, by its life on the wire |
| EndToEnd.Serve | backend/services/ocpp-server/internal/ws/connection.go:60-81 | the handler methods fed any wire in order, with any fates of their calls, reach exactly the specified server state |
| SessionCache.CachedIdsAreRowIds | backend/services/sessions-service/internal/repository/session_repo.go:23-48 | in every run, with any overlap and any failure, a cached session id is its row's id |
| SessionCache.CachedIff | backend/services/sessions-service/internal/redis/active_sessions_store.go:37-61 | in every run a transaction is cached if and only if some save of it has been neither deleted nor expired since |
| SessionCache.TableIsCommitted | backend/services/sessions-service/internal/repository/session_repo.go:23-72 | in every run the table is what the statements that took effect, seen or unseen, make of an empty one |
| SessionCache.StaleEntryIff | backend/services/sessions-service/internal/service/sessions_service.go:59-108 | in every run, some point has an idle cached entry of a session that is not active if and only if some label spoils it: tx's only pending request ends while its row is not active, by a save that succeeds or a cache operation that fails with tx cached, or a Stop of an idle cached tx commits behind an error |
| SessionCache.StaleStepIff | backend/services/sessions-service/internal/service/sessions_service.go:77-106 | the same for one step from any state in which the entry is not stale |
| SessionCache.CacheAgreement | backend/services/sessions-service/internal/service/sessions_service.go:59-108 | if requests for a transaction do not overlap, cache deletes succeed and no Stop commits behind an error, a cached entry belongs to an active row with that id whenever no request is pending, through expiries, failed saves and failed SQL; with nothing lost the cached keys are exactly the active transactions |
| SessionCache.OverlapLeavesStaleEntry | backend/services/sessions-service/internal/service/sessions_service.go:77-88 | a stop overtaking its start's cache save leaves an entry for a completed session |
| SessionCache.FailedDeleteLeavesStaleEntry | backend/services/sessions-service/internal/service/sessions_service.go:102-106 | a failed cache delete does so too |
| SessionCache.UnseenCommitLeavesStaleEntry | backend/services/sessions-service/internal/repository/session_repo.go:61-64 | so does an UPDATE that commits although the service sees an error, with no overlap and no failed delete |
| SessionCache.SessionsService.StartSession | backend/services/sessions-service/internal/service/sessions_service.go:59-91 | table and cache change as two steps of the machine; a failed save is swallowed |
| SessionCache.SessionsService.StopSession | backend/services/sessions-service/internal/service/sessions_service.go:94-108 | table and cache change as two steps of the machine; a missing row or a statement error leaves the cache alone |
| WsFrames.FrameRoundTrip | csms/internal/ws/simple.go:115-161 | any legal client frame, any length form, mask and reserved bits, is read back whole and the stream stands right after it |
| WsFrames.FrameSound | csms/internal/ws/simple.go:115-161 | conversely every accepted frame is the encoding of a legal client frame |
| WsFrames.StreamRoundTrip | csms/internal/ws/simple.go:113-183 | for any text and binary messages with pongs between, repeated reads return exactly the messages in order and consume exactly their bytes |
| WsFrames.ReadAcceptsIff | csms/internal/ws/simple.go:113-183 | a read returns a message if and only if the stream is legal pongs followed by that message |
| WsOutcomes.ReadIff | csms/internal/ws/simple.go:113-183 | for every stream and every outcome - message, close, and each of the six failures - a read has it if and only if the stream is legal final pongs and then what that outcome calls for: one legal final frame of that opcode, a non-final frame, a frame of another opcode, an unmasked header, a length of 2^63 or more, or a break in the middle of a frame |
| WsOutcomes.EndOfInputIff | csms/internal/ws/simple.go:133-158 | a frame read fails for want of input exactly when the stream is a proper beginning of a legal frame or of an oversized header |
| WsOutcomes.MoreInput | csms/internal/ws/simple.go:115-161 | the bytes after a frame, or after any other error, never matter |
| WsFrames.PingFailsTheRead | csms/internal/ws/simple.go:172-176 | a ping ends the read with an error |
| WsFrames.ReservedBitsIgnored | csms/internal/ws/simple.go:119-120 | reserved bits never change what is read; a non-final frame is refused |
| WsFrames.LengthReadsBack | csms/internal/ws/simple.go:201-216 | each length form, with or without the mask bit, reads back as the length |
| WsFrames.WrittenFrameDecodes | csms/internal/ws/simple.go:201-224 | a written frame decodes to a final frame of its type and payload with no reserved bit set and nothing left over |
| WsFrames.FrameLayout | csms/internal/ws/simple.go:201-224 | the bytes of a written frame: first byte, 7-bit, 16-bit or 64-bit length, no mask, payload |
| WsFrames.OutputDecodes | csms/internal/ws/simple.go:185-225 | a receiver recovers exactly the list of types and payloads written |
| WsFrames.PrefixFree | csms/internal/ws/simple.go:185-225 | no written frame is the beginning of a different one |
| WsFrames.ShortestForm | csms/internal/ws/simple.go:203-216 | the chosen length form fits and every other fitting form is strictly longer |
| WsFrames.ClosePayloadReadsBack | csms/internal/ws/simple.go:240-245 | the close payload gives back the low 16 bits of the code, negative codes included, and the text |
| WsBytes.BigEndianRoundTrip | csms/internal/ws/simple.go:133-147 | big-endian writing then reading is the identity within range |
| WsBytes.BigEndianInverse | csms/internal/ws/simple.go:133-147 | big-endian reading then writing is the identity |
| WsBytes.MaskInvolution | csms/internal/ws/simple.go:159-161 | masking twice with one key is the identity |
| WsBytes.MostSignificantFirst | csms/internal/ws/simple.go:133-147 | numbers are read most significant byte first |
| WsBytes.MaskedOctet | csms/internal/ws/simple.go:159-161 | octet i is combined with octet i modulo 4 of the key |
| WsConn.Conn.ReadFull | csms/internal/ws/simple.go:134-136 | fills the buffer from the stream, or fails having consumed everything |
| WsConn.Conn.Unmask | csms/internal/ws/simple.go:159-161 | the in-place loop masks the whole payload |
| WsConn.Conn.ReadOneFrame | csms/internal/ws/simple.go:115-161 | result and remaining stream are those of the frame specification, on every error path too |
| WsConn.Conn.ReadMessage | csms/internal/ws/simple.go:113-183 | result and remaining stream are those of the read specification whose exact languages WsOutcomes.ReadIff gives; nothing is ever written; it terminates |
| WsConn.Conn.WriteMessage | csms/internal/ws/simple.go:185-225 | appends exactly one server frame, or nothing and an error for an unsupported type |
| WsConn.Conn.WriteControl | csms/internal/ws/simple.go:227-238 | as WriteMessage, or an error when the deadline cannot be set |
| WsConn.FormatCloseMessage | csms/internal/ws/simple.go:240-245 | the fresh buffer holds the close payload, for any int code |
| WsConn.ChooseSubprotocol | csms/internal/ws/simple.go:52-69 | a server without subprotocols accepts everyone; any other refuses exactly the clients that offer none of them, and otherwise takes the first preferred one that was offered |
| WsConn.FirstOffered | csms/internal/ws/simple.go:55-65 | the nested loops find the first server-preferred subprotocol that was offered, or none |
| WsConn.ChoiceIsUnique | csms/internal/ws/simple.go:52-69 | that condition determines the choice |
| WsWriters.WireIsWholeFramesPlusOnePrefix | csms/internal/ws/simple.go:198-224 | with any number of concurrent writers the wire is completed frames plus a prefix of the lock holder's frame; with the lock free it decodes to exactly the completed messages |
| WsWriters.StepExclusive | csms/internal/ws/simple.go:198-199 | only the lock holder is ever inside the write |
| WsWriters.WrittenAreAccepted | csms/internal/ws/simple.go:198-224 | in every interleaving the completed messages and the one in progress are exactly those given to the calls that got the lock, in order |
| WsWriters.HolderCompletes | csms/internal/ws/simple.go:198-224 | a call that has the lock writes its whole frame, flushes it and frees the lock |
| Pumps.DeliveredInOrder | backend/services/ocpp-server/internal/ws/connection.go:84-120 | taken plus buffered responses are the accepted ones in order; until the writer stops the text frames plus the one in hand are exactly those taken; the buffer never exceeds 16, a response is dropped exactly when it is full |
| PumpProgress.WriterStoppedIff | backend/services/ocpp-server/internal/ws/connection.go:88-104 | in every run the writer has stopped if and only if a write failed, a Close was tried, or it saw the cancellation |
| PumpProgress.ReaderLeftIff | backend/services/ocpp-server/internal/ws/connection.go:60-81 | in every run the reader has gone into cleanup if and only if a read failed or it saw the cancellation; no answer, or none, ends it |
| PumpProgress.EverythingAcceptedIsDelivered | backend/services/ocpp-server/internal/ws/connection.go:88-104 | from any reachable state with the socket open and the writer going, as many successful turns as there are buffered responses put every accepted response on the wire, in order |
| PumpProgress.ClosedChannelDrainsThenCloses | backend/services/ocpp-server/internal/ws/connection.go:92-96 | once the channel is closed, with the socket open, what is buffered is delivered and then one Close frame ends the wire |
| PumpProgress.CleanupCompletes | backend/services/ocpp-server/internal/ws/connection.go:132-138 | once in cleanup the remaining steps close the channel and the socket, unregister and cancel |
| PumpProgress.PingsGoOut | backend/services/ocpp-server/internal/ws/connection.go:100-103 | the ticker's and the manager's pings go out and leave the writer going |
| Pumps.EveryResponseOffered | backend/services/ocpp-server/internal/ws/connection.go:73-80 | every response Process returned is offered to the channel in order, but for one in hand |
| Pumps.CleanShutdown | backend/services/ocpp-server/internal/ws/connection.go:109-138 | the channel is never closed twice nor sent on after closing, at most one Close frame is written and no text follows it |
| Pumps.WriterStopsAfterClose | backend/services/ocpp-server/internal/ws/connection.go:88-99 | after the channel is closed the writer takes at most the buffered count plus one turns from it |
| Pumps.WriterStopsAfterSocketClose | backend/services/ocpp-server/internal/ws/connection.go:127-134 | after the socket is closed the writer's next turn is its last and nothing more is written |
| Registry.RegisteredAreOpen | backend/services/ocpp-server/internal/ws/manager.go:28-39 | no registered connection is one whose on-close callback has finished |
| Registry.RegisteredIff | backend/services/ocpp-server/internal/ws/server.go:52-59 | an open connection is registered if and only if no other connection of its station was added or closed since it was added |
| Registry.RegistryIsOpenConnections | backend/services/ocpp-server/internal/ws/server.go:52-59 | if connections of one station never overlap the registry is exactly the open connections |
| Registry.OlderCloseUnregistersNewer | backend/services/ocpp-server/internal/ws/server.go:53-57 | closing an older connection unregisters the newer, open one |
| Registry.Manager.Add | backend/services/ocpp-server/internal/ws/manager.go:28-32 | registers the connection under its station |
| Registry.Manager.Remove | backend/services/ocpp-server/internal/ws/manager.go:35-39 | deletes the station's entry whoever holds it |
| Correlation.ParseCall | backend/services/ocpp-server/internal/ocpp/parser.go:26-60 | every CALL parses to its parts, and a document parses to given parts if and only if it is an array of at least four elements: 2, the id, the action (null standing for an empty string) and the payload |
| Correlation.ResponseAnswersItsCall | backend/services/ocpp-server/internal/ocpp/router.go:62-97 | a response carries its CALL's id: a payload becomes [3, id, payload], an error or an unknown action [4, id, InternalError, description, {}]; there is none exactly for non-CALLs and for registered handlers that return nil or something unencodable |
| Correlation.AnsweredExactly | backend/services/ocpp-server/internal/ocpp/router.go:62-97 | the answered positions are strictly increasing and are exactly the frames with a response |
| Correlation.Processor.Process | backend/services/ocpp-server/internal/ocpp/router.go:62-97 | returns the specified response for every frame and handler outcome |
| Correlation.Processor.ProcessAll | backend/services/ocpp-server/internal/ws/connection.go:60-81 | over any run of frames each response answers a distinct earlier CALL with its id, in order, and the unanswered CALLs are exactly those with a nil or unencodable outcome |
| Telemetry.SumEnergyIsSpread | backend/services/telemetry-service/internal/repository/telemetry_repo.go:39-53 | the query is the width of the smallest interval holding the session's readings, and 0 without readings |
| Telemetry.OrderIndependent | backend/services/telemetry-service/internal/repository/telemetry_repo.go:39-53 | the query does not depend on the order of arrival |
| Telemetry.TotalBounds | backend/services/telemetry-service/internal/service/telemetry_service.go:59-66 | for any history the total is non-negative and at most the exact spread, and exact if and only if the session was not in the snapshot or nothing since fell outside its range |
| Telemetry.ViewHas | backend/services/telemetry-service/migrations/0001_create_telemetry_data.sql:15-20 | the view has a line for exactly the sessions with readings, and it is the query's value |
| Telemetry.TelemetryService.StoreMeterValue | backend/services/telemetry-service/internal/service/telemetry_service.go:40-56 | appends the row and leaves the snapshot alone |
| Telemetry.TelemetryService.TotalEnergy | backend/services/telemetry-service/internal/service/telemetry_service.go:59-66 | snapshot line when readable, else the exact query; never above it |
| Telemetry.DeltasCoverRises | backend/services/telemetry-service/internal/service/energy_calc.go:4-9 | the incremental sum is at least every rise from an earlier to a later reading |
| Telemetry.DeltasTelescopeIff | backend/services/telemetry-service/internal/service/energy_calc.go:4-9 | it telescopes to last - first if and only if the readings never fall |
| Telemetry.DeltasIgnoreFalls | backend/services/telemetry-service/internal/service/energy_calc.go:4-9 | it exceeds last - first by exactly the sum of the falls it ignores, and is 0 if and only if no reading rises |
| Telemetry.IncrementalMeetsBatch | backend/services/telemetry-service/internal/repository/telemetry_repo.go:39-53 | for readings that never fall the incremental sum equals the batch query |
| Config.PopulateFromEnv | backend/libs/config/config.go:51-94 | the in-place recursive walk has exactly the effect and outcome of the flat list of assignments in order |
| Config.AssignLeaf | backend/libs/config/config.go:87-91 | one leaf is looked up, converted and set, or fails |
| ConfigKeys.KeysFollowPaths | backend/libs/config/config.go:51-102 | the assignments are, in field order, exactly one for each path of settable fields to a leaf with no named field tagged "-"; its key is the last tag on the path, or nothing, joined by underscores with the names below it, in upper case; embedded structs add nothing; a crash stands exactly for a settable embedded non-struct |
| ConfigKeys.AssignedIff | backend/libs/config/config.go:51-102 | a leaf is assigned under a key if and only if some path leads to it with that key |
| ConfigKeys.UpperIsUpperCase | backend/libs/config/config.go:96-102 | dashes become underscores, a to z become A to Z, everything else stays |
| Config.LoadingSetsExactly | backend/libs/config/config.go:51-136 | exactly the leaves before the first one that blocks are set to their parsed value or keep their prior one - a string is itself, an unknown kind never parses; everything else is unchanged; the outcome is that failure or success |
| Config.LoadingTwiceIsLoadingOnce | backend/libs/config/config.go:51-94 | a second pass over the same environment ends the same way and changes nothing |
| Config.LoadTwice | backend/libs/config/config.go:19-36 | the walk run twice on one memory ends as the walk run once |
| Config.NormalizedKeysAreNormal | backend/libs/config/config.go:96-102 | keys hold no dash or lower-case letter and normalizing again changes nothing |
| StationState.State.UpdateStation | backend/services/ocpp-server/internal/service/station_state.go:30-39 | the records equal the fold of the updates so far |
| StationState.State.UpdateConnector | backend/services/ocpp-server/internal/service/station_state.go:42-51 | the connector is written in place into the record's own map, and the records equal the fold of the updates so far |
| StationState.State.Snapshot | backend/services/ocpp-server/internal/service/station_state.go:54-69 | the same values, every connector map in it new and none shared between stations |
| StationState.State.SnapshotThenUpdate | backend/services/ocpp-server/internal/service/station_state.go:54-69 | no later run of updates changes a snapshot, and its maps stay apart from the store's |
| StationState.State.UpdateBeside | backend/services/ocpp-server/internal/service/station_state.go:54-69 | updates leave alone any snapshot that shares no map with the store |
| StationState.State.WriteIntoSnapshot | backend/services/ocpp-server/internal/service/station_state.go:54-69 | nor does writing into a snapshot change the store |
| StationState.StatusIsLastWrite | backend/services/ocpp-server/internal/service/station_state.go:30-39 | a station's status is its last write |
| StationState.ConnectorIsLastWrite | backend/services/ocpp-server/internal/service/station_state.go:42-51 | a connector's status is its last write, and it is absent without one |
| StationState.KnownIffNamed | backend/services/ocpp-server/internal/service/station_state.go:30-51 | a station is known exactly when some update names it |
| StationState.StationsAreIndependent | backend/services/ocpp-server/internal/service/station_state.go:30-51 | what is known of a station depends on its own updates only |
| StationState.StopKeepsConnectors | backend/services/ocpp-server/internal/handlers/stop_transaction.go:64 | a Stop's report marks the station Available and keeps every connector's status |
| StationState.StopLeavesConnectorCharging | backend/services/ocpp-server/internal/handlers/stop_transaction.go:64 | a connector marked Charging by a Start still reads Charging after the Stop unless a report in between names that connector |

## Left out

- HTTP servers, gateways, health checks, logging, JWT, password hashing, SHA-1 accept keys, list queries and the csms stub: plumbing or library behaviour.
- Floating-point rounding of energy and money: Wh are integers and money is real; the conversion of session ids through a JSON float is exact below 2^53 and taken as exact.
- Real time: deadlines, tickers, read limits and cache expiry are nondeterministic steps.
- JSON text and YAML syntax: JSON is a datatype, decoding a payload into a request is a parameter, the configuration file is whatever memory held before the environment pass; the checks that the target is a pointer to a struct are not modelled.
- Unicode upper-casing in configuration keys: ASCII letters only.
- Header parsing of the handshake, including splitting and trimming the offered subprotocols: the choice takes the offered list.
- The allocation failure of a very large announced payload: any length up to the largest int is read.
- Two goroutines writing to one gorilla connection at once: the manager's ping and the writer are separate whole writes.
- The simulator's connection loss and reconnect, heartbeats and status frames: a run is one connection; a frame is on the wire when its send begins, energy stays within int64, and drawn transaction ids are fresh.
- The boot and status notification handlers, which only report to the station state: those reports are the arbitrary events between a Start and its Stop.
- Users, station names and timestamps of session rows: no property depends on them; `SessionTable` keeps station and connector only.
- The foreign key from sessions to stations: a statement that violates it is one of the failing statements.
