# ugpibd: a verified model of its protocol core

ugpibd puts one GPIB bus behind HiSLIP, VXI-11 and Prologix. What makes it hard is keeping in step with things it cannot see: other clients' locks, the real addressing of the bus, a device's half-finished transfer, a message cut short by a device clear. This project models those parts in Dafny and proves what they promise, for every input, every run and every failure point.

- `Locks`, `LockRuns`: the daemon-wide lock registry, whole runs of it, and the waits parked on it.
- `Vxi11Links`, `Vxi11Abort`, `Vxi11Io`, `Timeouts`: VXI-11 links against the locks they hold, the abort window, the write and read loops with their deadlines, and the adapter's timeout table.
- `Bus488`, `NiBackend`, `Agilent`: an IEEE 488.1 bus driven by command bytes, what an adapter answers and what the code makes of it, and the two backends that address the bus. The NI backend's addressing cache is proved to agree with the bus as long as the replies it trusts were whole, and which replies break that is exact.
- `HislipSession`, `HislipMessages`: message-available bookkeeping, command assembly across device clears, messages on the wire, the splitting of replies and the client's query.
- `Usbtmc`: the bulk pipe and its recovery, with a future that may be dropped at any await.
- `Bytes`, `Xdr`, `Vxi11Structures`, `Rpc`, `RpcRecords`, `NiFraming`: the codecs.

The daemon runs on a single-threaded executor, so the code between two awaits is one step and interleaving happens only at awaits. Where the source updates objects in place the model has classes (`LockRegistry`, `Link`, `HeldBus`, `NiUsbHs`, `GpibController`, `SessionEntry`, `MessageCounter`, `Reader`, `Pipe`, `Cursor`, `RecordStream`); runs over many clients are state machines over events. The network, the clock, the adapters and the devices are parameters or nondeterministic outcomes.

## Where the code falls short of a simple promise

Each of these is kept as the code has it, with the exact condition proved.

- A task waiting for access is not woken when its own holder is granted a lock (`OwnGrantWakesNobody`); a wait whose subscription is current is over unnoticed exactly when its holder holds a lock itself (`AccessWakeupLostIff`).
- The NI backend takes an aborted command transfer for success whatever is left over, and does not look at the replies to take-control, standby and IFC. So it can remember an addressing that never reached the bus (`WrongCache`), start a write with another instrument listening (`WrongListener`), return a status with the bus still in serial-poll mode (`StuckPoll`) and prime with somebody listening (`PrimedListener`). Which replies do that is exact: `ReadAddressedIff`, `ReadAddressedFromAnywhereIff`, `WriteAddressedIff`, `PollRestoredIff`, `PrimingIff`. With replies that stand for the whole of what they answer the promises hold over every run (`RunAll`).
- The 82357 backend drops the count of command bytes sent, with the same two effects on writes and polls (`Agilent.WrongListener`, `Agilent.StuckPoll`), exactly when bytes were left over that were needed (`Agilent.WriteAddressedIff`, `Agilent.PollRestoredIff`).
- A controller address written without being confirmed leaves the chip elsewhere than the backend believes, with a cache that still names the old address (`MovedChip`); when it does is exact (`SetControllerAddress`), and with every write of that register confirmed it never does (`RunAll`).
- The USBTMC pipe may be settled by its own flags with a reply still owed (`SubmittedWithAReplyOwed`): only if, since the last clear, the host saw a transfer that did not complete or an abort that went unconfirmed (`OwedOnlyIfSeen`), and exactly when a request was taken by the device although its transfer did not complete, or its reply was aborted without the device's word (`SettledYetOwedIff`). The tag keeps such a reply from being returned by the next 254 requests (`NoneOwedReturned`), and by no more than that (`StaleReplyTakenIff`).
- device_read does not cut what a backend brings. It returns more than was asked for, or subtracts below zero, exactly when an attempt brought more than it was asked for (`OverfullRead`, `WithinClampIff`). The NI parser never does (`NiReadsWithinClamp`); a USBTMC device may, by up to three bytes, exactly when its size field says so (`FourForOne`, `ReadsNoMoreIff`).
- The repository's own HiSLIP client never says RMT-delivered and never completes a clear, so once a reply was announced its status reads MAV for good (`OwnClientMavStays`).
- The VXI-11 server's table of adapter steps lacks the 1000 s step (`FloorsAgreeIff`).
- A HiSLIP payload cut short by the end of the stream is accepted as whole (`ShortPayloadIsAccepted`, `ReadIsOnTheWire`).
- A client that declares a maximum below the server's least chunk of 256 bytes gets its reply exactly when the whole reply is within that maximum (`QueryRoundTrip`).
- MAV in overlapped mode reads false when the number of outstanding messages is a multiple of 2^31 (`OverlappedMav`).
- The end of an RPC stream counts as a clean hang-up also inside a fragment header and after empty fragments (`NoRecordIff`).

## Model

| member | source | states |
|---|---|---|
| `LockModel.IdentitiesNeverCollide` | src/frontend/lock.rs:65-74 | holder identities are injective within HiSLIP and within VXI-11, and never equal across them |
| `LockModel.RequestKeepsTablesOk` | src/frontend/lock.rs:154-190 | a request keeps the registry invariant; one that conflicts changes nothing |
| `LockModel.ReleaseKeepsTablesOk` | src/frontend/lock.rs:193-227 | a release keeps the invariant and is an error, changing nothing, exactly when the caller holds no lock there |
| `LockModel.WithoutKeepsTable` | src/frontend/lock.rs:232-247 | forgetting a holder zeroes its depth, leaves everybody else's, and keeps the table sound or empty |
| `LockModel.ReleaseAllKeepsTablesOk` | src/frontend/lock.rs:232-252 | release_all keeps the invariant and is the identity for a holder of nothing |
| `LockModel.TwoWithAccess` | src/frontend/lock.rs:103-107 | two different holders both have access exactly when the resource is free or both share it with no exclusive lock |
| `LockModel.InfoCountsHolders` | src/frontend/lock.rs:93-99 | the reported count is the number of distinct holders with positive depth |
| `LockRuns.StepKeepsTablesOk` | src/frontend/lock.rs:154-252 | every operation keeps the invariant, one that fails changes nothing, and exactly the successful releases notify |
| `LockRuns.RunKeepsTablesOk` | src/frontend/lock.rs:78-108 | after every run: an exclusive holder excludes other shared holders, a shared name exists exactly while shared holders do, depths are positive, no empty table is stored |
| `LockRuns.AskAccounts` | src/frontend/lock.rs:154-190 | a grant adds one level to its own holder on its own resource and touches no other account |
| `LockRuns.FreeAccounts` | src/frontend/lock.rs:193-227 | a release succeeds exactly at positive depth, takes one level, and touches no other account |
| `LockRuns.FreeAllAccounts` | src/frontend/lock.rs:232-252 | release_all zeroes its holder on every resource and touches no other account |
| `LockRuns.StepAccounts` | src/frontend/lock.rs:154-252 | each operation moves the account of the holder it names and no other |
| `LockRuns.DepthIsBalance` | src/frontend/lock.rs:78-86 | over every run, depth is grants minus successful releases since the last release_all |
| `LockRuns.ReleasesSpend` | src/frontend/lock.rs:193-227 | k releases in a row lower the depth by k, down to zero |
| `LockRuns.ExactlyBalanceReleases` | src/frontend/lock.rs:193-227 | after every run exactly that many more releases succeed and the next is an error |
| `LockRuns.GrantsResolveNothing` | src/frontend/lock.rs:154-190 | a grant to anyone resolves no other request's conflict and frees no resource |
| `LockRuns.StepLosesNone` | src/frontend/lock.rs:130-151 | no operation resolves what a parked task waits for without notifying it |
| `LockRuns.AttemptLosesNone` | src/frontend/lock.rs:130-151 | subscribing before testing leaves no gap in which a release is missed |
| `LockRuns.NoLostWakeup` | src/frontend/lock.rs:130-151 | in every run of requests, releases, waits, wake-ups, expiries and cancellations, a task whose subscription is current is still blocked |
| `LockRuns.GrantableMeansNotified` | src/frontend/lock.rs:130-151 | a parked lock request that could be granted now has been notified |
| `LockRuns.OwnGrantWakesNobody` | src/frontend/lock.rs:272-281 | a run in which an access wait is over and nobody was notified |
| `LockRuns.AccessWakeupLostIff` | src/frontend/lock.rs:272-281 | a current access wait is over unnoticed exactly when its holder holds a lock itself |
| `LockRegistryObject.LockRegistry.TryRequest` | src/frontend/lock.rs:154-190 | the in-place attempt is the specified step, granted exactly when there is no conflict |
| `LockRegistryObject.LockRegistry.Release` | src/frontend/lock.rs:193-227 | the in-place release is the specified step, successful exactly for a holder |
| `LockRegistryObject.LockRegistry.Forget` | src/frontend/lock.rs:235-246 | the per-table part of release_all removes every level of one holder and says whether there was any |
| `LockRegistryObject.LockRegistry.Retain` | src/frontend/lock.rs:235-247 | whatever order the tables come in, the result is release_all of every table, and says whether anything was freed |
| `LockRegistryObject.LockRegistry.ReleaseAll` | src/frontend/lock.rs:232-252 | the in-place release_all is the specified step, notified exactly when something was freed |
| `Vxi11Links.RunKeepsLinks` | src/vxi11/server.rs:396-442 | in every run a VXI-11 holder is a live link with one exclusive level on its own resource, or holds nothing |
| `Vxi11Links.LockAnswersExactly` | src/vxi11/server.rs:686-728 | device_lock answers 0 exactly when this step took the lock, otherwise no lock changed, and 4 exactly for an unknown link |
| `Vxi11Links.RefusedCreateLeavesNothing` | src/vxi11/server.rs:655-676 | a locking create_link refused at once leaves links and locks as they were |
| `Vxi11Links.RefusedWaitLeavesNothing` | src/vxi11/server.rs:655-676 | one refused after waiting removes its link and leaves no lock, whatever happened meanwhile |
| `Vxi11Links.DestroyLeavesNothing` | src/vxi11/server.rs:502-521 | destroy_link leaves neither the link nor any lock of it |
| `Vxi11Links.CloseLeavesNothing` | src/vxi11/server.rs:427-442 | a cleanly closed connection takes exactly its own links and all their locks with it |
| `Vxi11Links.UnlockKeepsLinks` | src/vxi11/server.rs:526-542 | a successful device_unlock leaves the link holding nothing anywhere |
| `Vxi11Abort.RunKeepsWindow` | src/vxi11/server.rs:192-216 | in every run a set abort flag means a call in flight that an abort reached, and every answer 23 belongs to a window an abort arrived in |
| `Vxi11Abort.AbortEndsOnlyItsCall` | src/vxi11/server.rs:686-728 | a call that looks returns 23 exactly when an abort arrived in its own window; a leftover permit ends nothing |
| `Vxi11Abort.AbortsAreSpentOnce` | src/vxi11/server.rs:307-336 | calls ended by abort never outnumber the aborts that found a call in flight |
| `Vxi11Abort.ResultsAreFinal` | src/vxi11/server.rs:192-216 | no later event changes the answer of a finished call |
| `Vxi11Abort.Link.AbortDispatch` | src/vxi11/server.rs:319-334 | device_abort marks and notifies a call in flight and does nothing otherwise |
| `Vxi11Abort.Link.LockWaitNotified` | src/vxi11/server.rs:709-720 | the notified branch ends the wait exactly when the flag was set, and consumes flag and permit |
| `Vxi11Abort.Link.OpenWindow` | src/vxi11/server.rs:198-204 | a call in flight is marked as such, and nothing else changes |
| `Vxi11Abort.Link.TakeAbort` | src/vxi11/server.rs:206-209 | takes the flag and reports it |
| `Vxi11Abort.Link.CloseWindow` | src/vxi11/server.rs:211-216 | ending a call discards an abort nobody looked for |
| `Vxi11Io.NextChunk` | src/vxi11/server.rs:1231-1250 | each transfer is the next slice of the data, only the first addresses, EOI is on the last byte or nowhere, its adapter wait is positive and within the time left |
| `Vxi11Io.WriteChunks` | src/vxi11/server.rs:1179-1280 | for every length, failure point, abort and clock: acknowledged chunks are exactly the first `size` bytes, 0 means all of them, and each error is returned exactly for its own cause |
| `Vxi11Io.EoiGoesOutOnce` | src/vxi11/server.rs:1236-1250 | EOI goes out at most once, on the last transfer, with the last byte |
| `Vxi11Io.DeviceWrite` | src/vxi11/server.rs:1179-1280 | unknown link and lock-out touch nothing; otherwise the loop's promises hold, the default timeout is back, and an abort after the last chunk still answers 23 |
| `Vxi11Io.NextSlice` | src/vxi11/server.rs:1369-1385 | each read attempt starts before the deadline, asks for exactly what is still wanted, with this call's terminator and a positive wait within the time left and the adapter's slice, and brings whatever the backend returns |
| `Vxi11Io.Turn` | src/vxi11/server.rs:1376-1437 | one attempt ends the read for its own cause, or leaves it going with less of its bytes wanted plus time left |
| `Vxi11Io.ReadSlices` | src/vxi11/server.rs:1358-1437 | for every backend behaviour: the data is the attempts' bytes in order up to the first reason to stop, reason bits are exactly what is true of it, reason 0 with error 0 only for a full clamp of a larger request, deadline, abort, fault and overrun only when they happened |
| `Vxi11Io.WithinClampIff` | src/vxi11/server.rs:1384-1401 | the data is within the clamp exactly when no attempt brought more than it was asked for, and only otherwise can the length to ask for fall below zero |
| `Vxi11Io.OverfullRead` | src/vxi11/server.rs:1384-1401 | a request for one byte that returns four, or overruns if the end is not marked |
| `Vxi11Io.NiReadsWithinClamp` | src/backend/ni_usb_hs/mod.rs:245-252 | over the NI backend the data is always within the clamp |
| `Vxi11Io.DeviceRead` | src/vxi11/server.rs:1298-1469 | every exit but an overrun restores terminator and timeout, answers by its own cause, and returns partial data except on a bus fault |
| `Timeouts.FloorIsGreatestStep` | src/backend/ni_usb_hs/protocol.rs:670-682 | flooring gives the greatest step not above the request, under the code the rounding table has for it, and never the wait-forever code |
| `Timeouts.RoundingUpWaitsLonger` | src/backend/ni_usb_hs/protocol.rs:609-632 | the rounding table never picks a step shorter than the request |
| `Timeouts.WriteWaitIsBounded` | src/vxi11/server.rs:1286-1296 | what the write loop tells the adapter is a finite exact step, at most the time left or one millisecond |
| `Timeouts.FloorsAgreeIff` | src/vxi11/server.rs:1286-1296 | the server's floor and the adapter's agree exactly for waits above zero and below 1000 s |
| `Bus488.WriteAddressesExactlyOne` | src/backend/ni_usb_hs/mod.rs:490-521 | whatever was addressed before, after a write's addressing exactly the target listens and only the controller talks |
| `Bus488.ReadAddressesExactlyUs` | src/backend/ni_usb_hs/mod.rs:557-588 | after a read's addressing the controller is the only listener and the named instrument the talker |
| `Bus488.ReaddressingIsInvisible` | src/backend/ni_usb_hs/mod.rs:146-167 | addressing again changes nothing exactly when the bus is already addressed that way |
| `AdapterReplies.HonestSuccessIsWhole` | src/backend/ni_usb_hs/mod.rs:262-285 | if every reply taken for success stands for the whole of what it answers, a successful sequence of any length reached the bus whole and left ATN where it should |
| `AdapterReplies.ReadAddressedIff` | src/backend/ni_usb_hs/mod.rs:557-588 | a read addressing taken for success, and so remembered, is the state of the bus exactly when the line went down and nothing was left over that was needed |
| `AdapterReplies.ReadAddressedFromAnywhereIff` | src/backend/ni_usb_hs/mod.rs:557-588 | it is right whatever the bus was before exactly when nothing was left over and standby happened |
| `AdapterReplies.WriteAddressedIff` | src/backend/ni_usb_hs/mod.rs:507-509 | exactly the target listens, and the data phase is safe, exactly for those replies |
| `AdapterReplies.PollRestoredIff` | src/backend/ni_usb_hs/mod.rs:693-696 | after a restore taken for success the bus is out of serial-poll mode with no talker exactly for those replies |
| `AdapterReplies.PrimingIff` | src/backend/ni_usb_hs/mod.rs:412-466 | bring-up primes with nobody listening exactly when IFC happened, UNL got out, or nobody listened before |
| `Bus488.PollAddressed` | src/backend/ni_usb_hs/mod.rs:647-653 | the poll addressing puts the bus in serial-poll mode with the instrument talking to us alone |
| `Bus488.PollRestored` | src/backend/ni_usb_hs/mod.rs:693-696 | SPD and UNT leave serial-poll mode with no talker |
| `NiBackend.NiUsbHs.constructor` | src/backend/ni_usb_hs/mod.rs:170-181 | a new backend remembers no addressing |
| `NiBackend.NiUsbHs.CommandChunks` | src/backend/ni_usb_hs/mod.rs:275-280 | sixteen bytes a transfer until one is refused; what each leaves over is not sent, and codes 0 and 1 go on |
| `NiBackend.NiUsbHs.Command` | src/backend/ni_usb_hs/mod.rs:262-285 | any command traffic forgets the cache first, and succeeds exactly when the code takes the replies for success, whatever reached the bus |
| `NiBackend.NiUsbHs.WriteAddressed` | src/backend/ni_usb_hs/mod.rs:490-521 | refused exactly in listen-only or device mode; a data phase starts exactly after addressing taken for success, and with whole replies with exactly the target listening |
| `NiBackend.NiUsbHs.WriteInChunks` | src/vxi11/server.rs:1231-1250 | a message whose first chunk addresses and whose others rely on it reaches exactly the target in all of them |
| `NiBackend.NiUsbHs.WriteDataBody` | src/backend/ni_usb_hs/mod.rs:217-241 | the transfers go out in order until one fails; success means all of them |
| `NiBackend.PiecesCarryTheData` | src/backend/ni_usb_hs/mod.rs:217-241 | the transfers of a write carry exactly the data, each within the 16-bit length, EOI on the last at most |
| `NiBackend.NiUsbHs.ReadAddressed` | src/backend/ni_usb_hs/mod.rs:523-592 | the addressing is remembered exactly when taken for success; with whole replies, skipped or not, the data phase starts on the bus that re-addressing would have produced |
| `NiBackend.NiUsbHs.PollReady` | src/backend/ni_usb_hs/mod.rs:674-717 | from the acceptor on, every path stops it, sends SPD and UNT and re-arms |
| `NiBackend.NiUsbHs.Poll` | src/backend/ni_usb_hs/mod.rs:647-717 | a status is returned exactly for those answers and means HALT set and an empty cache, and with an honest restore no poll mode and no talker |
| `NiBackend.NiUsbHs.InterfaceClear` | src/backend/ni_usb_hs/mod.rs:621-628 | IFC forgets the cache whether or not it is answered or happens |
| `NiBackend.NiUsbHs.SetAtnLine` | src/backend/ni_usb_hs/mod.rs:751-762 | driving ATN by hand forgets the cache |
| `NiBackend.NiUsbHs.SetControllerAddress` | src/backend/ni_usb_hs/mod.rs:730-743 | a confirmed address drops the cache; otherwise address and cache stay, and the chip is where the backend believes exactly when the write had no effect or none was needed |
| `NiBackend.MovedChip` | src/backend/ni_usb_hs/mod.rs:730-743 | a run in which the chip moves unconfirmed while a cache is held |
| `NiBackend.NiUsbHs.Initialize` | src/backend/ni_usb_hs/mod.rs:386-488 | bring-up forgets the cache, leaves the chip at its address if the setup was confirmed, and primes exactly after these answers, on the bus that IFC and the addressing left |
| `NiBackend.NiUsbHs.Prime` | src/backend/ni_usb_hs/mod.rs:445-466 | whether or not the addressing works, the first data write is spent |
| `NiBackend.ReplyReadAs` | src/backend/ni_usb_hs/protocol.rs:382-401 | what the backend takes for success, and how much was sent, is what the status block says |
| `NiBackend.WrongCache` | src/backend/ni_usb_hs/mod.rs:557-588 | a run that remembers an addressing which never reached the bus |
| `NiBackend.WrongListener` | src/backend/ni_usb_hs/mod.rs:507-509 | a run in which a write starts with another instrument listening |
| `NiBackend.StuckPoll` | src/backend/ni_usb_hs/mod.rs:647-717 | a run in which a status is returned with the bus still in serial-poll mode |
| `NiBackend.PrimedListener` | src/backend/ni_usb_hs/mod.rs:412-466 | a run in which bring-up primes with an instrument listening |
| `NiBackend.NiUsbHs.EnterListenOnly` | src/backend/ni_usb_hs/mod.rs:783-836 | entering or leaving listen-only drops the cache; entering takes effect only on success |
| `NiBackend.NiUsbHs.EnterDeviceMode` | src/backend/ni_usb_hs/mod.rs:842-877 | entering or leaving device mode drops the cache; entering takes effect only on success and in range |
| `NiBackend.NiUsbHs.RunAll` | src/backend/ni_usb_hs/mod.rs:146-167 | after any operations, any of them failing anywhere, if every reply taken for success was whole then a cached addressing is the state of the bus and every data phase was safe; if every write of the address register was confirmed the chip is at the backend's address |
| `Agilent.GpibController.SendCommandBytes` | src/backend/agilent_82357/gpib.rs:676-693 | succeeds exactly when answered with a count, whatever the count; a stall ends in recovery, whose IFC clears the bus if it works |
| `Agilent.GpibController.Write` | src/backend/agilent_82357/gpib.rs:299-314 | the data phase starts exactly after an answered command, with whole counts with exactly the target listening; a stalled one ends in recovery |
| `Agilent.WriteAddressedIff` | src/backend/agilent_82357/gpib.rs:307-313 | exactly the target listens exactly when all three bytes were counted, or none was and it listened alone before |
| `Agilent.PollRestoredIff` | src/backend/agilent_82357/gpib.rs:487-489 | an answered restore leaves serial-poll mode with no talker exactly for those counts |
| `Agilent.WrongListener` | src/backend/agilent_82357/gpib.rs:676-693 | a run in which a write starts with another instrument listening |
| `Agilent.StuckPoll` | src/backend/agilent_82357/gpib.rs:457-505 | a run in which a status is returned with the bus still in serial-poll mode |
| `Agilent.GpibController.SerialPoll` | src/backend/agilent_82357/gpib.rs:457-505 | SPD and UNT are attempted on success and, after recovery, on failure; a status is returned exactly for those answers, and with a whole restore means no poll mode and no talker |
| `HislipSession.IdsAgree` | src/hislip/server.rs:154 | message ids that count up by two from 0xffffff00 coincide exactly at distances that are multiples of 2^31 |
| `HislipSession.ServerIdsCount` | src/hislip/server.rs:426-432 | in overlapped mode the next id counts the messages sent since the last clear |
| `HislipSession.OverlappedMav` | src/hislip/server.rs:435-447 | over every run, a client handed k of n messages reads MAV exactly when k < n, for fewer than 2^31 outstanding |
| `HislipSession.PendingIsTheFlag` | src/hislip/server.rs:397-420 | the flag is set exactly when a reply was announced and neither RMT-delivered nor a clear came since |
| `HislipSession.LastClientId` | src/hislip/server.rs:397-400 | the remembered id is that of the latest client message |
| `HislipSession.SynchronizedMav` | src/hislip/server.rs:448-460 | over every run and quoted id: MAV exactly when a reply is pending and the id is the latest |
| `HislipSession.ClientReadsMav` | src/hislip/client.rs:234-243 | the id the client's own status quotes reads MAV exactly while a reply is pending, once the server has noted all it sent |
| `HislipSession.OwnClientMavStays` | src/hislip/client.rs:144-171 | for the runs of the repository's own client, MAV reads true exactly when any reply was ever announced |
| `HislipSession.SessionEntry.AnnounceReply` | src/hislip/server.rs:890-894 | the flag goes up as a reply is about to be sent |
| `HislipSession.SessionEntry.NoteClientMessage` | src/hislip/server.rs:397-407 | remembers the id, and RMT-delivered drops the flag |
| `HislipSession.SessionEntry.SetOverlapped` | src/hislip/server.rs:416-421 | a completed clear sets the mode, drops MAV and restarts the ids |
| `HislipSession.SessionEntry.ResponseMessageId` | src/hislip/server.rs:426-432 | the request's own id, or the next of the server's, which advances |
| `HislipSession.SessionEntry.MavBit` | src/hislip/server.rs:435-460 | bit 4 exactly when the specification says a message is available |
| `HislipSession.MessageCounter.NextMessageId` | src/hislip/client.rs:137-141 | the n-th message carries the n-th id |
| `HislipSession.MessageCounter.StatusQuotes` | src/hislip/client.rs:234-243 | status quotes the id of the last message sent, or the one before the first |
| `HislipAssembly.SyncLoop` | src/hislip/server.rs:788-842 | under any interleaving with device clears the epoch counter and buffer execute, at each DataEND, exactly the payloads since the later of the last clear and the DataEND before |
| `HislipAssembly.CommandIsOneStretch` | src/hislip/server.rs:820-842 | command j is the payloads of one stretch ending at the j-th DataEND, starting after a clear or the DataEND before, with neither inside |
| `HislipMessages.MessageRoundTrip` | src/hislip/messages.rs:37-102 | what is written is read back with the rest of the stream untouched, unless over the reader's limit, which is refused |
| `HislipMessages.ReadIsOnTheWire` | src/hislip/messages.rs:37-85 | a message read is what the stream began with exactly when the stream held all of the declared payload |
| `HislipMessages.ShortPayloadIsAccepted` | src/hislip/messages.rs:69-70 | any message cut short at any point of its payload is accepted with what arrived |
| `HislipMessages.WriteResponse` | src/hislip/server.rs:995-1033 | the messages concatenate to the reply, only the last is DataEND, the others are full chunks, the ids step by two or repeat the request's, an empty reply is one empty DataEND |
| `HislipMessages.WithinClientMax` | src/hislip/server.rs:1004-1007 | every message with its header is within the client's maximum or 272 bytes |
| `HislipMessages.StreamRoundTrip` | src/hislip/messages.rs:37-102 | any messages written one after the other read back as themselves, and then what follows them is left |
| `HislipMessages.ReplyReadsBack` | src/hislip/server.rs:995-1033 | the messages of a reply in either mode, ids stepping by two included, come off the stream exactly as they went on |
| `HislipMessages.Reader.ReadReply` | src/hislip/client.rs:247-287 | the query loop collects the payloads of its own id up to DataEND, and refuses anything else |
| `HislipMessages.CollectsReply` | src/hislip/client.rs:247-287 | any reply of admissible messages is collected whole from any point of it |
| `HislipMessages.QueryRoundTrip` | src/hislip/client.rs:247-287 | server splitting, the wire and the client's query compose to the identity exactly when the client's limit admits 256 bytes or the whole reply |
| `UsbtmcProtocol.TagCycles` | src/backend/usbtmc/protocol.rs:69-75 | tags run through 1 to 255 in a cycle |
| `UsbtmcProtocol.TagsDistinct` | src/backend/usbtmc/protocol.rs:69-75 | tags are never 0 and any 255 consecutive ones are distinct |
| `UsbtmcProtocol.OutIsPadded` | src/backend/usbtmc/protocol.rs:104-117 | a bulk-OUT message carries its data after the header and is a multiple of four bytes |
| `UsbtmcProtocol.InRoundTrip` | src/backend/usbtmc/protocol.rs:154-190 | a device's transfer parses to its data and marks exactly for the request with its tag |
| `UsbtmcProtocol.StaleReplyRefused` | src/backend/usbtmc/protocol.rs:154-190 | a reply to any of the 254 requests before is refused |
| `UsbtmcProtocol.StaleReplyTakenIff` | src/backend/usbtmc/protocol.rs:154-190 | a reply is taken for another request's exactly when a multiple of 255 requests lies between |
| `UsbtmcPipe.SubmittedOntoASettledPipe` | src/backend/usbtmc/mod.rs:411-421 | in every history no bulk-OUT was submitted while, by the host's own account, an earlier message or awaited reply was neither completed, nor aborted under its own tag, nor cleared |
| `UsbtmcPipe.SubmittedWithAReplyOwed` | src/backend/usbtmc/mod.rs:343-369 | a history in which the next message goes out with a reply owed |
| `UsbtmcPipe.AwaitedUntilAborted` | src/backend/usbtmc/mod.rs:306-340 | an awaited reply stays awaited until taken, cleared, or an abort is made under its tag |
| `UsbtmcPipe.SettledYetOwedIff` | src/backend/usbtmc/mod.rs:272-294 | with no reply awaited, one is still owed exactly when its request was taken although its transfer did not complete, or was aborted without the device's word, and nothing ended it since |
| `UsbtmcPipe.OwedOnlyIfSeen` | src/backend/usbtmc/mod.rs:272-294 | a reply may be owed only if, with no clear completed since, the host saw a bulk-OUT that did not complete or an abort that went unconfirmed |
| `UsbtmcPipe.OwedReplyNotReturned` | src/backend/usbtmc/mod.rs:492-512 | no transfer of the next 254 requests is a reply still owed |
| `UsbtmcPipe.NoneOwedReturned` | src/backend/usbtmc/mod.rs:439-456 | so nothing a read returns is one |
| `UsbtmcPipe.Poll` | src/backend/usbtmc/mod.rs:320-335 | the handshake is polled while pending, until the device is done or fifty times |
| `UsbtmcPipe.AbortInHandshake` | src/backend/usbtmc/mod.rs:306-340 | success means the whole exchange under this tag: nothing in progress and a reset, or start, reset, polls to an end, reset |
| `UsbtmcPipe.AbortOutHandshake` | src/backend/usbtmc/mod.rs:343-369 | success means the whole exchange under this tag, ending in a reset |
| `UsbtmcPipe.ClearHandshake` | src/backend/usbtmc/mod.rs:374-405 | success means the device reported done and both pipes were reset |
| `UsbtmcPipe.Pipe.AbortBulkIn` | src/backend/usbtmc/mod.rs:306-340 | a completed handshake closes the reply with its tag; otherwise nothing is closed |
| `UsbtmcPipe.Pipe.AbortBulkOut` | src/backend/usbtmc/mod.rs:343-369 | a completed handshake closes the message with its tag; otherwise nothing is closed |
| `UsbtmcPipe.Pipe.ClearDevice` | src/backend/usbtmc/mod.rs:374-409 | both flags are cleared only after a completed clear; else nothing changes |
| `UsbtmcPipe.Pipe.AbortBoth` | src/backend/usbtmc/mod.rs:276-284 | if every needed abort succeeds nothing is open in either direction |
| `UsbtmcPipe.Pipe.Settle` | src/backend/usbtmc/mod.rs:272-294 | failed or dropped anywhere it leaves both flags, and succeeding it clears both with nothing left open |
| `UsbtmcPipe.Pipe.FallShort` | src/backend/usbtmc/mod.rs:411-421 | a request the device took although its transfer failed or was dropped is left behind; a dropped call keeps its flag |
| `UsbtmcPipe.Pipe.Deliver` | src/backend/usbtmc/mod.rs:413-420 | on a settled pipe the message is submitted and accepted, or falls short with its record |
| `UsbtmcPipe.Pipe.SendMessage` | src/backend/usbtmc/mod.rs:411-421 | a message goes out only onto a pipe settled by its flags, its flag survives a drop, and what the device took of it is on record |
| `UsbtmcPipe.Pipe.WriteMessage` | src/backend/usbtmc/mod.rs:423-428 | success means the encoded data was submitted under a fresh tag and accepted |
| `UsbtmcPipe.Resync` | src/backend/usbtmc/mod.rs:489-512 | the first buffer, of at most four, that carries the tag is found, with only buffers that do not before it |
| `UsbtmcPipe.Pipe.Ask` | src/backend/usbtmc/mod.rs:459-471 | a request for the wanted length under a fresh tag, submitted, accepted and awaited |
| `UsbtmcPipe.Pipe.ReadOneTransfer` | src/backend/usbtmc/mod.rs:459-538 | data returned answers that request, and was parsed from the first buffer that carries its tag |
| `UsbtmcPipe.Pipe.ReadTransfers` | src/backend/usbtmc/mod.rs:439-456 | the result is the transfers of consecutive requests in order, ended exactly if the last was, stopping at the end mark, at the bytes wanted, or when nothing comes |
| `UsbtmcPipe.Pipe.ReadMessage` | src/backend/usbtmc/mod.rs:439-456 | and none of it is a reply the device owed before |
| `UsbtmcPipe.ReadsNoMoreIff` | src/backend/usbtmc/mod.rs:439-456 | a read returns no more than it was asked for exactly when the last transfer's size field or length is within what was asked, and at most three bytes more if its buffer is within the room the read makes for padding |
| `UsbtmcPipe.FourForOne` | src/backend/usbtmc/protocol.rs:154-190 | a device's answer of four bytes to a request for one, which is returned whole |
| `UsbtmcPipe.Pipe.RunAll` | src/backend/usbtmc/mod.rs:272-294 | after any operations, each failing or dropped anywhere, whatever is open by the host's account has its flag set and the history is in step |
| `UsbtmcPipe.ConformsInOrder` | src/backend/usbtmc/mod.rs:439-456 | the transfers of a conforming device are a prefix of its message within what was asked |
| `UsbtmcPipe.ReadsWholeMessage` | src/backend/usbtmc/mod.rs:428-456 | however a conforming device splits its message, the caller gets all of it, ended, or its first `want` bytes, not ended |
| `Xdr.ItemRoundTrip` | src/vxi11/xdr.rs:43-127 | every XDR item within its bound reads back from wherever it stands; an opaque beyond it is refused |
| `Xdr.LayoutRoundTrip` | src/vxi11/xdr.rs:43-139 | any sequence of items decodes to what was encoded |
| `Xdr.LayoutRefused` | src/vxi11/xdr.rs:115-123 | any sequence with an opaque over its bound is refused as too long |
| `Xdr.GotInBounds` | src/vxi11/xdr.rs:94-123 | whatever bytes arrive, every decoded item is of its kind and within its bound |
| `Xdr.Cursor.Next` | src/vxi11/xdr.rs:84-123 | the moving cursor reads the item at its position, or fails as specified |
| `Vxi11Structures.StructureRoundTrip` | src/vxi11/messages.rs:36-455 | each of the fifteen structures decodes to what was encoded exactly when its opaque is within the decoder's limit |
| `Rpc.CallRoundTrip` | src/vxi11/rpc.rs:93-126 | a call with credential and verifier of any flavour and admissible body decodes to its header and arguments; another type or version is refused with its xid |
| `Rpc.EncodedCallDecodes` | src/vxi11/rpc.rs:185-199 | every call the client writes decodes to its own header and arguments |
| `Rpc.ReplyRoundTrip` | src/vxi11/rpc.rs:242-265 | every reply the server writes reads back, and is refused by a client awaiting another xid |
| `RpcRecords.RecordStream.ReadRecord` | src/vxi11/rpc.rs:279-310 | the fragment loop reads one record off the stream as specified |
| `RpcRecords.RecordStream.WriteRecord` | src/vxi11/rpc.rs:315-330 | one last fragment, or refused at 2^31 bytes and nothing written |
| `RpcRecords.RecordRoundTrip` | src/vxi11/rpc.rs:279-310 | any fragmentation reads back whole and leaves the stream at the next record, exactly when the total is within the limit |
| `RpcRecords.NoRecordIff` | src/vxi11/rpc.rs:284-291 | no record is answered exactly for a stream of zero words and fewer than four further bytes |
| `Portmap.EncodeDumpReply` | src/vxi11/portmap.rs:67-75 | the appending loop produces the entry chain with its end mark |
| `Portmap.DecodeDumpReply` | src/vxi11/portmap.rs:79-86 | the reading loop yields the chain or the first error |
| `Portmap.DumpRoundTrip` | src/vxi11/portmap.rs:67-86 | any list of mappings decodes to itself, whatever follows |
| `NiFraming.ParseRegisterReadResponse` | src/backend/ni_usb_hs/protocol.rs:321-347 | accepts exactly the frames of marked chunks of three with the end mark, and returns exactly their bytes |
| `NiFraming.TakeBlock` | src/backend/ni_usb_hs/protocol.rs:505-511 | the bytes of one block, or none if the reply ends inside it |
| `NiFraming.ParseDataReadResponse` | src/backend/ni_usb_hs/protocol.rs:482-554 | the block loop reads the blocks, status and trailing count as specified |
| `NiFraming.DataReadRoundTrip` | src/backend/ni_usb_hs/protocol.rs:482-554 | any bytes in uniform 15- or 30-byte blocks come back exactly, up to the length asked for, with the END bit |
| `NiFraming.NeverMoreThanAsked` | src/backend/ni_usb_hs/protocol.rs:551-552 | whatever the reply holds, no more is returned than was asked for |
| `NiFraming.ResidueReported` | src/backend/ni_usb_hs/protocol.rs:382-401 | the negated residue gives the bytes transferred, and only codes 0 and 1 are success |

## Left out

- The link table and its connections are a state machine on values: the hash map and owned lists are not updated in place.
- A connection is taken to name only links it created, one call at a time per link; a connection that ends in a read or write error skips the teardown and is not covered by `CloseLeavesNothing`.
- Link ids stop at 2^31 instead of wrapping; nesting depths and the clear epoch are unbounded.
- The lock waits are events of a run (park, wake, expire, cancel), not loops around a timer.
- A reply is taken to be true of what happened: a residue it reports was left over, and what it does not report was done. An adapter whose replies are false is not modelled.
- Command bytes are sent under ATN, which the adapter raises for them, as the encoder of the transfer says.
- NiBackend.NiUsbHs.Poll: the wait for the status byte is one outcome, without its deadline loop; a poll or bring-up whose future is dropped leaves out the steps that a failed one still makes, and is not modelled on its own.
- IFC is modelled as unaddressing everybody without leaving serial-poll mode; shutdown is terminal and has no successor operations.
- Agilent.GpibController.Write: only the listener set and the talker are stated, not ATN, which the firmware raises itself; the register setup around it is not modelled.
- UsbtmcPipe.Pipe.AbortBulkIn: an abort that stays pending through all fifty polls is carried on from, as in the code, so the device's own confirmation is not claimed.
- HislipAssembly.SyncLoop: execution, lock waits and replies between messages are not part of the loop; an oversized message leaves its payload on the stream, and what is read after that is not modelled.
- HiSLIP message types are their code numbers; initialization, feature negotiation and service requests are not modelled.
- Message and RPC headers, and the structure codecs, are functions on values; the buffer and cursor are objects only in `Cursor`, `Reader` and `RecordStream`. The four words of a portmap entry are read in a loop.
- Vxi11Io.DeviceRead: stops where the length to ask for falls below zero, since what follows depends on the build (a panic, or a wrapped length); takes the link lookup and the lock gate as outcomes, as does `Vxi11Io.DeviceWrite`; the text match that tells a timeout from a fault is an enum.
- device_docmd, readstb, interrupt channels and the other VXI-11 procedures: dispatch without loops or shared state of their own.
- USB discovery, endpoint wiring, firmware upload, interrupt readers and the draining of stale NI replies: foreign calls and hardware timing.
- Prologix parsing, capture streaming, the command line, portmap networking, logging and error text: thin dispatch with easy properties.
