# FaceTicket: a verified model of its ticket life cycle

FaceTicket issues wristband tickets, checks them at a gate and takes them back.
A server runs the issue, entry and return flows, a wristband holds the face in
a 2048-byte memory behind a BLE characteristic, an NFC reader wakes the
wristband, and a table of issue rows says who holds which wristband and seat.
This project models these parts and proves that they agree: over every run of
commands, with every BLE, NFC, device and database call free to fail.

## How the model is laid out

| file | what it holds |
|---|---|
| `Wrappers.dfy` | options, bytes |
| `Chunks.dfy` | the chunked embedding protocol: host loops against the wristband's attribute callbacks, on arrays |
| `Embeddings.dfy` | normalisation, cosine and the zero test over exact reals; float32 bytes; the entry decision |
| `IssueTable.dfy` | the rows, their laws over operation sequences, and the repository object |
| `Firmware.dfy` | wristband and tag as a transition system; `loop()` one statement at a time, callbacks, interrupt and reader in between |
| `Wristband.dfy` | the firmware's globals as an object; every method is a run of those statements |
| `Flows.dfy` | the runner's commands as whole steps over session, table, link, wristbands and console |
| `FlowLaws.dfy` | console, link, agreement, history and conservation laws over all command sequences |
| `EndToEnd.dfy` | an issued face passes; nothing passes after a return |
| `FlowRunner.dfy` | session and runner as objects that mutate in place, proved equal to `Flows` |
| `Interleaving.dfy` | the flows suspended at every `await`, freely interleaved |
| `Replies.dfy`, `Operator.dfy` | the wake reply, the address handoff, the wake polling loop |
| `SerialLines.dfy` | line framing on both serial links |

What the environment decides is part of an event: which wristband answers,
which GATT call is the first to raise and whether the wristband had already
executed it, what a flag read gives, whether the database raises. A theorem over
all event sequences is therefore a theorem over all environments.

Two granularities are used for the flows. `Flows` takes a command up to its
return, or up to the pause after a "done" screen, as one step; the agreement,
console, link and end-to-end results live there. `Interleaving` suspends every
coroutine at its awaits; the table matching and gate safety live there.

## What is proved, and where the code falls short of it

* An active row's wristband still holds the face it was issued with. This is
  kept by every command *except* a return that cleared an active wristband
  while the id read or the database failed: `read_wristband_id` answers `""`
  on failure, `record_return("")` then closes nothing, and the flow still
  reports success. `FlowLaws.AgreementIff` is the exact condition,
  `FlowLaws.UnreadReturnBreaks` and `EndToEnd.UnreadReturnAfterIssue` the input.
* The BLE link is open exactly while an entry holds a stored face. Two broadcasts
  can spoil this, since one raises when a console joins or leaves meanwhile
  (`server/src/faceticket/adapters/web/client_pool.py:23-31` iterates a set
  across an await). The log line after the comparison comes before the `try`
  whose `finally` disconnects: the session ends with the link open
  (`FlowLaws.EarlyExitLeaksLink`). The broadcast that completes the command
  comes after it: the session stays with its stored face and no link
  (`FlowLaws.UncompletedEntryGoesOn`). `FlowLaws.LinkBalanceIff` is the exact
  condition, `FlowLaws.LinkOutlivesIff` that of the half that keeps idle
  sessions unlinked. The comparison itself would raise for faces of two sizes;
  the recognisers only give 512 numbers, so there this is a fact about the step,
  not about the program.
* The console shows idle or done exactly when no session runs, and sessions rest
  only where a face is awaited, unless a broadcast fails that completes or
  aborts a command: `FlowLaws.ConsoleIff`.
* A return ignores whether its clear succeeded. What it leaves lets a live face
  pass exactly when it is not empty and matches (`EndToEnd.PassAfterReturnIff`),
  even without an active row (`EndToEnd.PassWithoutRow`). A pass implies an
  active row as long as no command strands a face (`EndToEnd.BackedIff`,
  `EndToEnd.PassHasRow`).
* NFC-triggered BLE entries are covered by wake writes up to the clears of
  block 8 that were lost. They exceed the writes exactly when more entries took
  no token than tokens came to nothing: `Firmware.WakesExceededIff`, with a run
  in `Firmware.LostClearExceedsCount`.
* At the granularity of `await`, an issue cancelled during its seat write still
  records a row, with an empty seat and name, and a late entry step can read
  part of a face from one wristband and the rest and the contact flag from
  another, because every call looks the client up anew. `Interleaving.OwnStartIff`
  and `Interleaving.StraightIff` say exactly when; neither happens when each
  call waits for the earlier ones to end (`Interleaving.SequentialRuns`).
* The zero test and the cosine guard do not meet: some memories count as issued
  without passing against themselves (`Embeddings.GapIff`). This is a fact about
  the two functions. No normalized face is such a memory; what an interrupted
  write or clear leaves can be, and even then the guard plays no part against a
  live face of norm 1 (`Embeddings.NormalizedNotInGap`, `Embeddings.GuardUnreached`).
* `docs/flows.md` lets the operator start the tag step of an issue with a click
  and says that a return resets the contact flag. In the code the tag step
  follows the captured face by itself, and the flag is a live reading of a
  button that nothing resets. The model follows the code.

## Reading guide

Embeddings are byte strings: a float32 array is its bytes, and `Values` reads
them as exact reals. A number that is not finite makes the similarity a NaN,
which no comparison with the threshold accepts. Norms are non-negative reals
whose square is the sum of squares. `WriteRun` and `ReadRun` specify the two
transfer loops; the methods `WriteEmbedding` and `ReadEmbedding` are the loops.
Sizes are parameters: wristband buffer, host chunk and served chunk.

## Model

| member | source | states |
|---|---|---|
| Chunks.LastWriterWins | firmware/wristband/src/main.cpp:397-408 | after any sequence of payloads, in any order, repeated, over-long, too short or out of range, each memory byte is the last one written to it, or its old value |
| Chunks.OffsetOnBytes | firmware/wristband/src/main.cpp:397-425 | on the bytes: payload `lo, hi` and data puts the data at lo + 256 hi, as far as the buffer goes, and an offset write of them reads from there |
| Chunks.ShortPayloads | firmware/wristband/src/main.cpp:397-425 | a payload of less than two bytes changes neither memory nor read offset |
| Chunks.PayloadOnBytes | server/src/faceticket/adapters/ble/bleak_central.py:87-90 | the host sends low byte, high byte, then at most one chunk of the data |
| Chunks.PayloadNumber | server/src/faceticket/adapters/ble/bleak_central.py:87-90 | the host sends exactly one payload for each chunk, number k at offset k * chunk |
| Chunks.ServeBytes | firmware/wristband/src/main.cpp:409-415 | a read serves the bytes from the offset on, as many as there are and at most the served chunk |
| Chunks.OrderIsIrrelevant | server/src/faceticket/adapters/ble/bleak_central.py:84-94 | the host's payloads give the same memory in every order and with any repetition: the embedding laid over the old bytes |
| Chunks.WriteLeavesPrefix | server/src/faceticket/adapters/ble/bleak_central.py:84-94 | a write that fails at chunk k leaves exactly the new prefix and the old suffix, and reports success exactly when no chunk failed |
| Chunks.WriteStopsAt | server/src/faceticket/adapters/ble/bleak_central.py:84-94 | in numbers: a write stopped at call n has laid min(size, n * chunk) bytes over the memory, one chunk more when only the answer was lost, and succeeds exactly when n * chunk reaches the size |
| Chunks.WriteOk | server/src/faceticket/adapters/ble/bleak_central.py:84-94 | a write of any size that reports success has laid all its bytes over the memory |
| Chunks.ReadReturns | server/src/faceticket/adapters/ble/bleak_central.py:104-116 | a successful read returns the memory byte for byte, with zeros only in the gaps a too small served chunk leaves |
| Chunks.ReadByteIs | server/src/faceticket/adapters/ble/bleak_central.py:104-116 | in numbers: byte i of a successful read is the memory's if i mod chunk is below the served size, and zero otherwise |
| Chunks.ReadSucceedsIff | server/src/faceticket/adapters/ble/bleak_central.py:104-116 | a read succeeds if and only if neither call of any chunk raises |
| Chunks.ReadLeavesOffset | server/src/faceticket/adapters/ble/bleak_central.py:108-112 | a successful read leaves the wristband's read offset in the last chunk |
| Chunks.ReadIsExact | server/src/faceticket/adapters/ble/bleak_central.py:104-116 | with the host's chunk no larger than the served one a successful read is the whole memory |
| Chunks.ReadExactIff | firmware/wristband/src/main.cpp:409-425 | reading back is exact for every content if and only if the served chunk covers the host's chunk or the whole buffer |
| Chunks.ChunkRoundTrip | server/src/faceticket/adapters/ble/bleak_central.py:84-116 | a write seen to succeed followed by a read seen to succeed returns the same bytes, for every prior memory and read offset; without faults both succeed |
| Chunks.EmbeddingBuffer.OnEmbedWrite | firmware/wristband/src/main.cpp:396-408 | the write callback changes the buffer in place exactly as `Apply` decodes, clamps and copies |
| Chunks.EmbeddingBuffer.OnEmbedRead | firmware/wristband/src/main.cpp:409-415 | the read callback returns the clamped window at the current read offset |
| Chunks.EmbeddingBuffer.OnOffsetWrite | firmware/wristband/src/main.cpp:418-425 | the offset callback changes only the read offset, and only for payloads of two bytes or more |
| Chunks.WriteEmbedding | server/src/faceticket/adapters/ble/bleak_central.py:84-94 | the host's write loop against the callbacks leaves the memory and the result of `WriteRun`, for every fault |
| Chunks.ReadEmbedding | server/src/faceticket/adapters/ble/bleak_central.py:104-116 | the host's read loop fills its buffer and moves the read offset as `ReadRun` says, for every fault |
| Chunks.FetchChunk | server/src/faceticket/adapters/ble/bleak_central.py:110-112 | one attribute read is spliced into the host's buffer at its offset and nothing else changes |
| Embeddings.CauchySchwarz | server/src/faceticket/domain/embedding.py:18-25 | the squared dot product is at most the product of the sums of squares, for vectors of every length |
| Embeddings.CosineIsBounded | server/src/faceticket/domain/embedding.py:18-25 | the similarity of two vectors of one size lies in [-1, 1] |
| Embeddings.CosineIsSymmetric | server/src/faceticket/domain/embedding.py:18-25 | exchanging the vectors does not change the similarity |
| Embeddings.CosineIgnoresScale | server/src/faceticket/domain/embedding.py:18-25 | a positive factor does not change the similarity while the 1e-8 guard is not hit |
| Embeddings.CosineOfUnits | server/src/faceticket/domain/embedding.py:9-25 | on two outputs of the normalization the similarity is their dot product, and it is the similarity of the inputs where the guard is not hit |
| Embeddings.NormalizedNorm | server/src/faceticket/domain/embedding.py:9-15 | the normalized vector has norm 1, or is the input when its norm is below the guard |
| Embeddings.NormalizeIsIdempotent | server/src/faceticket/domain/embedding.py:9-15 | normalizing twice is normalizing once |
| Embeddings.CompareIsCosine | server/src/faceticket/application/flows/entry.py:85-93 | the decision without square roots is the comparison of the cosine with 0.55, raising included |
| Embeddings.NearZeroIsNorm | server/src/faceticket/domain/embedding.py:28-30 | the zero test holds exactly when the norm is below 1e-6 |
| Embeddings.SelfMatchIff | server/src/faceticket/domain/embedding.py:18-25 | a vector passes against itself if and only if its sum of squares reaches the guard |
| Embeddings.GapIff | server/src/faceticket/domain/embedding.py:18-30 | a memory counts as issued without passing against itself if and only if some number is not finite or its sum of squares lies in [1e-12, 1e-8) |
| Embeddings.SomeMemoryInGap | server/src/faceticket/domain/embedding.py:18-30 | such a memory of 2048 bytes: one number 2^-17, the others zero |
| Embeddings.NormalizedNotInGap | server/src/faceticket/domain/embedding.py:9-30 | a normalized face is never in that gap |
| Embeddings.GuardUnreached | server/src/faceticket/domain/embedding.py:18-30 | against a live face of norm 1 the guard never answers for a stored face that passed the zero test |
| Embeddings.NormalizedSelfMatch | server/src/faceticket/domain/embedding.py:9-30 | a vector normalized with a usable norm is not zero and passes against itself |
| Embeddings.ZeroBytesAreUnissued | server/src/faceticket/domain/embedding.py:28-30 | a cleared memory counts as unissued and no live face passes against it |
| Embeddings.SameFacePassesIff | server/src/faceticket/application/flows/entry.py:79-106 | on bytes: a face passes against itself exactly when its numbers are finite and clear the guard, and then it is not taken for unissued |
| Embeddings.OppositeIsDenied | server/src/faceticket/application/flows/entry.py:79-106 | on bytes: the face with every sign bit flipped is denied wherever the face itself passes |
| Embeddings.ValuesAt | server/src/faceticket/adapters/ble/bleak_central.py:113 | number i of an embedding is the binary32 number of its own four bytes, lowest first |
| Embeddings.OneIsOne | server/src/faceticket/adapters/ble/bleak_central.py:113 | the pattern 0x3F800000 is worth 1 |
| Embeddings.ExponentDoubles | server/src/faceticket/adapters/ble/bleak_central.py:113 | one exponent up doubles the value |
| Embeddings.FractionIsLinear | server/src/faceticket/adapters/ble/bleak_central.py:113 | within an exponent the fraction counts in 2^23 even steps |
| Embeddings.SubnormalIsLinear | server/src/faceticket/adapters/ble/bleak_central.py:113 | below the smallest exponent the same steps go on down to zero |
| Embeddings.SignNegates | server/src/faceticket/adapters/ble/bleak_central.py:113 | the sign bit negates |
| Embeddings.FiniteIff | server/src/faceticket/adapters/ble/bleak_central.py:113 | exactly the patterns with exponent 255 are not finite |
| Embeddings.ValueGrows | server/src/faceticket/adapters/ble/bleak_central.py:113 | without sign the values grow strictly with the 31-bit pattern |
| Embeddings.UnitsPassIff | server/src/faceticket/application/flows/entry.py:85-93 | on vectors of norm 1 the decision is a dot product of at least 0.55 |
| IssueTable.TableHistory | server/src/faceticket/adapters/persistence/sqlite_repo.py:40-69 | after any sequence of issues and returns the active rows are a one-to-one matching, ids increase, rows are never deleted or returned twice, and issues minus returns is the change in active rows |
| IssueTable.MatchingKept | server/src/faceticket/adapters/persistence/sqlite_repo.py:40-69 | each operation keeps the matching of wristbands and seats and extends the history |
| IssueTable.BalanceStep | server/src/faceticket/adapters/persistence/sqlite_repo.py:54-69 | an operation changes the number of active rows by exactly what it reports |
| IssueTable.OneReturned | server/src/faceticket/adapters/persistence/sqlite_repo.py:61-69 | a return of an active wristband closes exactly one row |
| IssueTable.ReturnTouchesAtMostOne | server/src/faceticket/adapters/persistence/sqlite_repo.py:61-69 | two rows changed by one return are the same row |
| IssueTable.ReturnFrees | server/src/faceticket/adapters/persistence/sqlite_repo.py:61-69 | after a return the wristband is free, and it reports true exactly when a row changed |
| IssueTable.IssueOutcome | server/src/faceticket/adapters/persistence/sqlite_repo.py:40-59 | an accepted issue is active under an id above all others; a refused one changes nothing and has the conflict it names, wristband first |
| IssueTable.ListIsDescending | server/src/faceticket/adapters/persistence/sqlite_repo.py:71-78 | the listing holds exactly the active rows, in strictly descending id order |
| IssueTable.IssueRepository.RecordIssue | server/src/faceticket/adapters/persistence/sqlite_repo.py:40-59 | the insert leaves the table and the result of `InsertIssue`, and keeps matching, order and history |
| IssueTable.IssueRepository.RecordReturn | server/src/faceticket/adapters/persistence/sqlite_repo.py:61-69 | the update, row by row, leaves the table and the result of `UpdateReturn` and the wristband free, and keeps matching, order and history |
| IssueTable.IssueRepository.List | server/src/faceticket/adapters/persistence/sqlite_repo.py:71-78 | the listing holds exactly the active rows of the moment, in strictly descending id order |
| Firmware.SingleRadio | firmware/wristband/src/main.cpp:573-590 | in every reachable state, at every statement, WiFi and BLE are not both on, and between passes the mode names the radio that is on |
| Firmware.WhyBleEnds | firmware/wristband/src/main.cpp:742-750 | a BLE session is ended only by a flag set during that session, or with nobody connected after more than 20000 ms of real time: no left-over flag, no early wrap |
| Firmware.FlagEndsBle | firmware/wristband/src/main.cpp:742-744 | wherever `loop()` stands in BLE mode when the switch flag is set, the next whole pass at the latest returns to ESP-NOW, whoever is connected and whatever comes between its statements |
| Firmware.TimeoutEndsBle | firmware/wristband/src/main.cpp:745-749 | a session with nobody connected and more than 20000 ms old ends with the next whole pass at the latest, unless somebody connects before it has decided, in every round of the 32-bit counter |
| Firmware.SessionEnds | firmware/wristband/src/main.cpp:573-590 | from any moment of a session without client: whatever happens until 20000 ms have passed and a whole pass runs, the session has ended or somebody has connected |
| Firmware.ConnectionLasts | firmware/wristband/src/main.cpp:378-385 | once a client connects to a session with no flag waiting, BLE stays up and the client connected, however long, until it goes or writes CTRL |
| Firmware.CallbackEndsBle | firmware/wristband/src/main.cpp:386-394 | from a CTRL write or the going of a client on, the next whole pass at the latest returns to ESP-NOW |
| Firmware.GoneClientLeavesUnclaimed | firmware/wristband/src/main.cpp:386-394 | a client that goes before the entry is complete, its flag forgotten, leaves a session the timeout ends |
| Firmware.BootState | firmware/wristband/src/main.cpp:593-638 | a freshly booted wristband: ESP-NOW alone, no client, no flags, an empty memory, the tag as found |
| Firmware.OffsetIsKept | firmware/wristband/src/main.cpp:418-425 | an offset written while BLE is up is where the next read starts |
| Firmware.EmbedWriteTouches | firmware/wristband/src/main.cpp:396-408 | a write to the embedding touches nothing else |
| Firmware.WakeCounting | firmware/wristband/src/main.cpp:296-307 | at every statement, NFC-triggered entries plus a pending token never exceed wake writes plus the initial token plus lost clears; each OK answer has a wake write of its own |
| Firmware.WakesExceededIff | firmware/wristband/src/main.cpp:296-307 | entries plus a pending token exceed wake writes plus the initial token if and only if more entries took no token than tokens came to nothing |
| Firmware.SlackRun | firmware/wristband/src/main.cpp:296-307 | over every run wake writes minus entries minus the pending token move by exactly the wasted tokens minus the unpaid entries |
| Firmware.LostClearExceedsCount | firmware/wristband/src/main.cpp:303-306 | a run that exceeds the count: one wake write, one entry whose clear is lost, and the token still pending |
| Firmware.WakeAnsweredIff | firmware/tools/esp32-pn5180-smoke/src/main.cpp:486-515 | a WAKE is answered OK if and only if its write was acknowledged, the read-back succeeds and the payload is still there, whatever the wristband does in between |
| Firmware.ClearAnsweredIff | firmware/tools/esp32-pn5180-smoke/src/main.cpp:460-482 | a CLEAR is answered OK if and only if its write of four zeros was acknowledged, the read-back succeeds and the block still holds them |
| Firmware.InvRun | firmware/wristband/src/main.cpp:692-753 | every statement, callback, interrupt and reader access keeps the radio, session and mailbox invariants |
| Firmware.MemoryKept | firmware/wristband/src/main.cpp:573-590 | mode switches, interrupts and reader accesses never touch the embedding |
| Firmware.TriggerChecked | firmware/wristband/src/main.cpp:296-307 | the two statements of the trigger check: entry follows exactly on a block read as FTWK, which is cleared if the write gets through |
| WristbandDevice.Wristband.constructor | firmware/wristband/src/main.cpp:593-638 | boot state: ESP-NOW on, empty memory, the tag as found |
| WristbandDevice.Wristband.OnConnect | firmware/wristband/src/main.cpp:378-385 | the callback is the `Connect` step, at any statement; what that does for the session is `Firmware.ConnectionLasts` |
| WristbandDevice.Wristband.OnDisconnect | firmware/wristband/src/main.cpp:386-393 | the callback drops the link and sets the switch flag, at any statement |
| WristbandDevice.Wristband.OnCtrlWrite | firmware/wristband/src/main.cpp:467-474 | the callback sets the switch flag, at any statement |
| WristbandDevice.Wristband.OnGpoFalling | firmware/wristband/src/main.cpp:291-293 | the interrupt only raises its flag |
| WristbandDevice.Wristband.OnEmbedWrite | firmware/wristband/src/main.cpp:396-408 | the write callback on the wristband's own buffer is the `EmbedWrite` step |
| WristbandDevice.Wristband.OnOffsetWrite | firmware/wristband/src/main.cpp:418-425 | the offset callback is the `OffsetWrite` step |
| WristbandDevice.Wristband.CheckNfcTrigger | firmware/wristband/src/main.cpp:296-307 | fires exactly when the block was read as FTWK, and clears it best-effort |
| WristbandDevice.Wristband.EnterBleMode | firmware/wristband/src/main.cpp:573-582 | the transition is the run of its five statements, with the time BLE takes to start |
| WristbandDevice.Wristband.EnterEspNowMode | firmware/wristband/src/main.cpp:543-590 | the transition is the run of its statements, with the disconnect callback a dropped client raises |
| WristbandDevice.Wristband.LoopPass | firmware/wristband/src/main.cpp:692-753 | an undisturbed pass of `loop()` is a run of its single statements, in every branch |
| WristbandDevice.PassEntersBleIff | firmware/wristband/src/main.cpp:721-733 | an undisturbed pass in ESP-NOW mode enters BLE if and only if the tag was due for a look and read as FTWK; then BLE is on alone, the token taken unless its clear was lost, no old flag waiting |
| WristbandDevice.PassLeavesBleIff | firmware/wristband/src/main.cpp:742-750 | an undisturbed pass in BLE mode returns to ESP-NOW if and only if the flag is set, or nobody is connected and more than 20000 ms have passed, counted modulo a round of the 32-bit counter |
| WristbandDevice.DebugEntersBle | firmware/wristband/src/main.cpp:656-659 | the debug command enters BLE mode from ESP-NOW with the old flag dropped, and goes on polling the debug line |
| WristbandDevice.BleEntry | firmware/wristband/src/main.cpp:573-582 | the whole transition: WiFi off, BLE on, a new stamp, the old switch flag dropped, and nothing else |
| WristbandDevice.EspNowEntry | firmware/wristband/src/main.cpp:543-590 | the whole transition back: BLE off, link forgotten, WiFi on, and the switch flag left set when a client was dropped |
| FlowLaws.ConsoleIff | server/src/faceticket/application/flow_runner.py:136-151 | a command leaves the console right, and the session resting where a face is awaited or not at all, if and only if its closing broadcasts do not fail where they matter |
| FlowLaws.ConsoleAgrees | server/src/faceticket/application/flow_runner.py:48-151 | after every command sequence whose closing broadcasts get out the console shows idle or done exactly when no session runs, and a session rests only where a face is awaited |
| FlowLaws.IssueShows | server/src/faceticket/application/flow_runner.py:53-64 | an issue shows the wait for the tag, then done if and only if its tag step succeeded, else idle with the link closed |
| FlowLaws.ReturnShows | server/src/faceticket/application/flow_runner.py:83-101 | so does a return |
| FlowLaws.EntryShows | server/src/faceticket/application/flow_runner.py:66-81 | an entry shows the wait for the tag, then asks for the face if and only if its tag step succeeded, else idle with the link closed |
| FlowLaws.FaceShows | server/src/faceticket/application/flow_runner.py:110-118 | a compared face ends the entry done, whatever the result |
| FlowLaws.LingersEndIdle | server/src/faceticket/application/flow_runner.py:145-151 | once every pending pause is over with nothing new started, the console shows idle |
| FlowLaws.LinkBalanceIff | server/src/faceticket/application/flows/entry.py:79-108 | a command keeps "link open exactly while an entry holds a stored face" if and only if it is not a captured face that leaves the comparison before the `try` and is completed, or gets through it and is not completed |
| FlowLaws.LinkOutlivesIff | server/src/faceticket/application/flows/entry.py:84-108 | a command keeps "link open only in an entry that holds a stored face" if and only if it does not leave the comparison early, with the link open, and is completed all the same |
| FlowLaws.JudgeRaisesIff | server/src/faceticket/domain/embedding.py:18-25 | the comparison raises if and only if the sizes differ and either a number is not finite or the product of the norms reaches the guard |
| FlowLaws.LinkBalance | server/src/faceticket/application/flows/_base.py:40-55 | with live faces of the wristband's size and the log line out, whatever else fails, the link is open only in an entry that holds a stored face, so an idle session has it closed |
| FlowLaws.LinkLastsEntry | server/src/faceticket/application/flow_runner.py:110-118 | and it is open all the time such an entry lasts, if completing a comparison never fails |
| FlowLaws.EarlyExitLeaksLink | server/src/faceticket/application/flows/entry.py:84-92 | every entry that leaves before the `try` and is completed, whatever the face, ends its session with the link still open |
| FlowLaws.UncompletedEntryGoesOn | server/src/faceticket/application/flow_runner.py:110-118 | an entry whose comparison is not completed keeps its session and stored face with the link closed |
| FlowLaws.AgreementIff | server/src/faceticket/application/flows/return_.py:42-49 | a command keeps table and wristbands in agreement if and only if it is not a return that cleared an active wristband without closing its row |
| FlowLaws.UnreadReturnBreaks | server/src/faceticket/application/flows/return_.py:42-54 | from every active wristband whose face has a nonzero first byte, a return that cannot read the id breaks the agreement and reports success |
| FlowLaws.AgreementHolds | server/src/faceticket/application/flows/issuance.py:68-104 | after every run whose returns read the id and reach the table, each active row's wristband holds the face it was issued with, byte for byte when it has the wristband's size |
| FlowLaws.ClearedHolds | server/src/faceticket/adapters/ble/bleak_central.py:142-145 | a clear that stops anywhere leaves the face in place exactly when the delivered part met only zero bytes |
| FlowLaws.InitialLaws | server/src/faceticket/domain/session.py:15-36 | a fresh server with booted wristbands satisfies the console, link and agreement laws |
| FlowLaws.ReturnTable | server/src/faceticket/application/flows/return_.py:42-49 | a return leaves active exactly the rows that were active, without the wristband's own when its id was read and the database answered |
| FlowLaws.RowHistory | server/src/faceticket/adapters/persistence/sqlite_repo.py:40-69 | over every run of commands the matching holds, ids increase, and no row is deleted or rewritten |
| FlowLaws.ActiveRowsBalance | server/src/faceticket/adapters/persistence/sqlite_repo.py:40-78 | over every run of commands the number of active rows grows by issues recorded minus returns that closed a row |
| FlowLaws.SizedRun | firmware/wristband/src/main.cpp:397-408 | no command, failure or wristband event ever changes a memory's size |
| FlowLaws.WristbandMoves | firmware/wristband/src/main.cpp:692-753 | between commands a wristband moves by its own steps |
| FlowLaws.ReadTouchesOffset | server/src/faceticket/adapters/ble/bleak_central.py:104-116 | reading a face touches only the read offset, which ends in the last chunk |
| EndToEnd.IssueTickets | server/src/faceticket/application/flows/issuance.py:53-104 | an issue that records its row, whether or not it then reports success, leaves the wristband active and holding exactly the captured face |
| EndToEnd.IssueSucceedsIff | server/src/faceticket/application/flows/issuance.py:53-104 | a tag step with a face records its row if and only if the wristband is reached and its id read, wristband and seat are free, no chunk fails and the database takes it; it succeeds if and only if the log lines after that get out as well |
| EndToEnd.RowAsGiven | server/src/faceticket/application/flows/issuance.py:34-36 | after an issue started with seat and name the recorded row is of the wristband that connects, with that seat, that name and the time |
| EndToEnd.IssueStarts | server/src/faceticket/application/flows/issuance.py:34-42 | a start from idle runs with the seat and name given and asks for the face, if and only if the device is there |
| EndToEnd.TicketKept | server/src/faceticket/application/flows/issuance.py:72-87 | the ticket survives every run in which no return reaches the wristband, including issues aimed at it |
| EndToEnd.EntryReadsFace | server/src/faceticket/application/flows/entry.py:38-77 | the tag step of an entry stores exactly the wristband's memory, with the link open, if and only if device, wake and connection are there, the face is read, the contact flag is 0 and the face is not empty; it signals one deny if and only if it read a face but no flag of 0 |
| EndToEnd.FaceSignals | server/src/faceticket/application/flows/entry.py:79-108 | a captured face signals exactly one pass if it matches and nothing raises, exactly one deny if it does not match with the device there and the log line out, and otherwise nothing |
| EndToEnd.PassIff | server/src/faceticket/application/flows/entry.py:38-108 | an entry and a face captured any time later signal a pass if and only if the read face came with contact flag 0, is not empty and matches, and nothing raises that ends the entry or comes before the gate; then it is one pass, for that wristband and memory |
| EndToEnd.IssuedFacePasses | server/src/faceticket/application/flows/entry.py:38-108 | after an issue that recorded its row and any run without a return reaching the wristband, an entry with contact flag 0 and good reads passes the issued face, however long its capture takes |
| EndToEnd.ReturnClears | server/src/faceticket/application/flows/return_.py:34-54 | a return whose clear was written in full leaves the wristband blank |
| EndToEnd.ReturnEffect | server/src/faceticket/application/flows/return_.py:34-54 | without device or wake a return does nothing; else it clears as far as it gets, touches no other wristband, and closes exactly the active rows of the id it read, with the time |
| EndToEnd.BlankKept | server/src/faceticket/application/flows/entry.py:63-65 | a blank wristband stays blank and no pass is signalled for it while no issue reaches it |
| EndToEnd.NothingPassesAfterReturn | server/src/faceticket/application/flows/return_.py:34-54 | after a return whose clear succeeded no live face passes on that wristband until a later issue reaches it |
| EndToEnd.PassAfterReturnIff | server/src/faceticket/application/flows/return_.py:34-54 | after any return, however far its clear got, a live face passes on that wristband if and only if what the clear left is not empty and matches it |
| EndToEnd.BackedIff | server/src/faceticket/application/flows/issuance.py:89-97 | a command keeps every non-empty wristband backed by an active row if and only if it is neither an issue leaving bytes of a face without a row nor a return leaving bytes without an active row |
| EndToEnd.InitialBacked | firmware/wristband/src/main.cpp:115 | a fresh server with booted wristbands has every wristband backed, none counting as issued |
| EndToEnd.PassHasRow | server/src/faceticket/application/flows/entry.py:50-108 | after every run that strands no face a pass is signalled only for a wristband with an active row |
| EndToEnd.StrayFaceIsIgnored | server/src/faceticket/application/flow_runner.py:103-118 | a face nobody waits for changes nothing |
| EndToEnd.PassWithoutRow | server/src/faceticket/application/flows/return_.py:42-54 | from every wristband whose memory passes against itself: a return cut at its first chunk reports success and closes the row, and the face on the wristband still opens the gate |
| EndToEnd.UnreadReturnAfterIssue | server/src/faceticket/application/flows/return_.py:42-54 | the agreement can break right after any issue that recorded its row, of a face with nonzero first byte |
| FlowRunner.SessionData.Start | server/src/faceticket/domain/session.py:26-30 | sets flow, seat and name and drops the old face |
| FlowRunner.SessionData.Reset | server/src/faceticket/domain/session.py:32-36 | the session is the empty one |
| FlowRunner.Runner.IssueStart | server/src/faceticket/application/flow_runner.py:48-51 | the command's effect on session, table, link and console is the `IssueStart` step |
| FlowRunner.Runner.FaceCaptured | server/src/faceticket/application/flow_runner.py:103-118 | a captured face dispatches to the issue or the entry and ends in done or abort as the step says |
| FlowRunner.Runner.EntryStart | server/src/faceticket/application/flow_runner.py:66-81 | the command's effect, tag step included |
| FlowRunner.Runner.ReturnStart | server/src/faceticket/application/flow_runner.py:83-101 | the command's effect, tag step included |
| FlowRunner.Runner.Cancel | server/src/faceticket/application/flow_runner.py:120-122 | closes the link, resets the session and shows idle, as far as its broadcasts get out |
| FlowRunner.Runner.LingerFires | server/src/faceticket/application/flow_runner.py:149-151 | the end of a pause shows idle only when no session has started, and if that broadcast gets out |
| FlowRunner.Runner.IssueOnTag | server/src/faceticket/application/flows/issuance.py:53-104 | check, write and record in order, each failure leaving exactly what was done before it |
| FlowRunner.Runner.EntryOnTag | server/src/faceticket/application/flows/entry.py:38-77 | face and flag are read before either is judged; the face is kept only when both are good |
| FlowRunner.Runner.EntryOnFace | server/src/faceticket/application/flows/entry.py:79-108 | signals pass or deny and closes the link, except when the comparison raises |
| FlowRunner.Runner.ReturnOnTag | server/src/faceticket/application/flows/return_.py:34-54 | the clear comes before the row, and a failed id read goes on with the empty id |
| FlowRunner.Runner.MarkDone | server/src/faceticket/application/flow_runner.py:145-149 | shows done, resets the session and leaves one pause pending; if the broadcast fails the session stays |
| FlowRunner.Runner.Abort | server/src/faceticket/application/flow_runner.py:136-143 | closes the link, resets the session and shows idle; a failed first broadcast leaves all as it is, a failed last one only the console |
| Interleaving.GateSafety | server/src/faceticket/application/flows/entry.py:50-108 | under every interleaving the gate opens only for a live face that matches one some tag step read with contact flag 0 and found issued |
| Interleaving.MatchingUnderInterleaving | server/src/faceticket/application/flows/issuance.py:72-97 | under every interleaving of issues, returns and cancels the active rows match wristbands and seats one to one |
| Interleaving.IssueGoesOn | server/src/faceticket/application/flows/issuance.py:53-97 | each suspension of an issue is passed if and only if its call gave what it needs; the face is written only to a free wristband for a free seat, and the row recorded only if both still are |
| Interleaving.EntryGoesOn | server/src/faceticket/application/flows/entry.py:38-77 | each suspension of an entry likewise; after sixteen calls the face is kept if and only if it was read, the flag was read as 0, and it is not empty |
| Interleaving.ReturnGoesOn | server/src/faceticket/application/flows/return_.py:34-48 | each suspension of a return likewise; it goes on with the empty id when the read failed |
| Interleaving.ReturnGetsThrough | server/src/faceticket/application/flows/return_.py:48-54 | a return that gets through leaves the wristband of its id free and all others as they were |
| Interleaving.FailedStartGoesOn | server/src/faceticket/application/flow_runner.py:66-72 | a start without device aborts, and the tag step that follows finds its flow not running |
| Interleaving.FaceIsCompared | server/src/faceticket/application/flows/entry.py:79-85 | a captured face is compared with the stored one of that moment; without one, or if that raises, the entry is over |
| Interleaving.EndsOnlySo | server/src/faceticket/application/flow_runner.py:136-172 | a coroutine ends only behind its reset, its gate signal, broadcasts that got out, or a guard that stops it, or when an abort's broadcasts fail |
| Interleaving.EndsInReset | server/src/faceticket/application/flow_runner.py:136-172 | a finished coroutine resets as done, a failed one aborts, a failed start goes on to its tag step |
| Interleaving.StepInv | server/src/faceticket/application/flow_runner.py:48-143 | every command and every resumption, the guarded tag step after a failed start included, keeps what gate safety and matching rest on |
| Interleaving.RowsTellTheirSession | server/src/faceticket/application/flows/issuance.py:94-97 | under every interleaving each row has seat and name of the session that ran when it was recorded, never of one before its own start |
| Interleaving.OwnStartIff | server/src/faceticket/application/flows/issuance.py:53-97 | a row is recorded from the session its issue was started in if and only if no start and no reset came in between; then it has that start's seat and name |
| Interleaving.RowAsCalled | server/src/faceticket/application/flow_runner.py:48-51 | an issue called with seat and name, and not overwritten, records a row with that seat and that name |
| Interleaving.CancelledIssueStillRecords | server/src/faceticket/application/flows/issuance.py:90-97 | a reachable run in which an issue cancelled during its seat write records a row with an empty seat and name |
| Interleaving.ReadOnIff | server/src/faceticket/adapters/ble/bleak_central.py:108-116 | one more call keeps a face read, or face and flag, on one wristband if and only if the central's client is still that of the first call |
| Interleaving.StraightIff | server/src/faceticket/adapters/ble/bleak_central.py:104-124 | a step keeps all tag steps, running and done, on one wristband each if and only if it is not a read call that goes to another client |
| Interleaving.OneWristbandPerRead | server/src/faceticket/application/flows/entry.py:50-67 | over every run in which no connection is made during a face read, each kept face and its flag come from one wristband |
| Interleaving.SequentialRuns | server/src/faceticket/application/flow_runner.py:48-122 | when each call waits for the coroutines before it, each kept face and flag come from one wristband and each row has the seat and name of its own start |
| Interleaving.FaceOfTwoWristbands | server/src/faceticket/application/flows/entry.py:50-67 | for every number of calls made before the change: a reachable run in which the gate opens on a face and flag read from two wristbands |
| Replies.AddressHandoff | firmware/tools/esp32-pn5180-smoke/src/main.cpp:503-512 | the server keeps an address exactly when the magic 46 41 is there, and the printed form of the wristband's MAC exactly when both blocks were written |
| Replies.KeptAddressSpells | firmware/tools/esp32-pn5180-smoke/src/main.cpp:510 | the address kept reads back, digit by digit from the characters, as exactly the wristband's six bytes, with colons between |
| Replies.AddressReply | server/src/faceticket/adapters/devices/operator.py:121-134 | a reply with twelve printed digits is accepted and parsed to the printed colon form |
| Replies.ParseIff | server/src/faceticket/adapters/devices/operator.py:121-134 | a word that starts with ADDR= in any case carries an address if and only if twelve hexadecimal digits follow, in any case; it is kept in upper case |
| Replies.AcceptedIff | server/src/faceticket/adapters/devices/operator.py:121-124 | a reply OK with a second word is taken for success if and only if that is none of the five failure details |
| Replies.DetailInAnyCase | server/src/faceticket/adapters/devices/operator.py:121-124 | no spelling of a failure detail in upper and lower case is taken for success |
| Replies.NoTagInAnyCase | server/src/faceticket/adapters/devices/operator.py:135 | a missing tag keeps the poll going in whatever case it is reported |
| Replies.StripAround | server/src/faceticket/adapters/devices/serial_io.py:207 | stripping takes away exactly the white space around a reply |
| Replies.SpacesAre | server/src/faceticket/adapters/devices/serial_io.py:207 | the white space stripped is tab to carriage return, the four separators and the blank |
| Replies.ColonFormInjective | firmware/wristband/src/main.cpp:561-571 | different addresses print differently |
| Replies.OnlyMissingTagRetries | server/src/faceticket/adapters/devices/operator.py:121-140 | no failure of the reader is taken for success, and exactly the missing tag keeps the poll going |
| Operator.OperatorDevice.WakeWristbandWait | server/src/faceticket/adapters/devices/operator.py:103-141 | at most ceil(timeout/0.3 s)+1 sends; true exactly when a run of NO_TAG replies seen in time is followed by an accepted one; the address comes only from that reply |
| Operator.FirstNonTagDecides | server/src/faceticket/adapters/devices/operator.py:135-140 | a hard error, or a NO_TAG at the deadline, rules out every later success |
| Operator.SuccessIsUnique | server/src/faceticket/adapters/devices/operator.py:103-141 | at most one reply can end the poll with success |
| SerialLines.LineAssembler.Drain | firmware/tools/esp32-pn5180-smoke/src/main.cpp:619-631 | a pass over the available bytes updates buffer and handed-over commands as the fold `Feed` says |
| SerialLines.PassesDoNotMatter | firmware/arduino-gate/arduino-gate.ino:41-51 | however the bytes fall into passes of `loop()` the result is that of the whole stream |
| SerialLines.LinesArrive | firmware/arduino-gate/arduino-gate.ino:41-51 | the board hands over exactly the host's lines in order, cut to its limit, empty ones left out, and is between two lines again |
| SerialLines.ExactLineIff | server/src/faceticket/adapters/devices/serial_io.py:186-193 | a board gets exactly the line sent and nothing else if and only if it is not empty, ASCII, free of terminators and within the limit |
| SerialLines.Resynchronises | firmware/tools/esp32-pn5180-smoke/src/main.cpp:619-631 | after any noise one LF puts the board between two lines |
| SerialLines.BoardsAgree | firmware/arduino-gate/arduino-gate.ino:41-51 | both assemblers agree on streams whose lines fit 32 characters and whose CRs are all followed by LF |
| SerialLines.LoneCrDiffers | firmware/arduino-gate/arduino-gate.ino:44-46 | a CR inside a line is two commands on the UNO and one on the ESP32 |
| SerialLines.ReadLine | server/src/faceticket/adapters/devices/serial_io.py:160-173 | the reply collected from partial reads |
| SerialLines.CollectStops | server/src/faceticket/adapters/devices/serial_io.py:167-172 | collecting stops behind the first read after which the text ends in LF or CR, and goes on behind any other |
| SerialLines.CollectIsPrefix | server/src/faceticket/adapters/devices/serial_io.py:160-173 | what is collected is a prefix of the incoming bytes, ending at a read that ends in CR or LF unless everything was taken |
| SerialLines.ReplyArrives | server/src/faceticket/adapters/devices/serial_io.py:160-207 | however a complete reply is cut into reads, the server gets its text |
| SerialLines.AddressIsNeverWrong | server/src/faceticket/adapters/devices/operator.py:121-134 | whatever part of an address reply is in before the deadline, the server keeps that very address or none, and keeps it as soon as the whole text is in |

## Left out

- Web layer, console pages, logging, settings and wiring: presentation. The presenter is the sequence of emitted states.
- FlowLaws.ConsoleAgrees: needs the closing broadcasts out; `FlowLaws.ConsoleIff` is the exact condition. A broadcast that fails elsewhere in a command is one of the exceptions its environment already has; how far it got among the consoles is not modelled.
- Face extraction and the frontality check: an embedding is an arbitrary byte string.
- IEEE rounding: cosine, norms and thresholds are exact reals over the float32 values.
- bleak, pyserial and SQLite themselves: their calls are arbitrary successes and failures, row operations are atomic, and BLE fragmentation below one attribute access is not modelled.
- Disconnecting is taken to be effective at the granularity of whole commands; in `Interleaving` it changes nothing, so late results come in after it.
- The seat attribute, LED and sound outputs, OLED, servo and ultrasonic sensor: they do not feed back into the modelled state.
- Reboot of a wristband: its memory is a static array, so runs are without reset.
- Reader hardware below block reads and writes: RF set-up, inventory and SPI registers end in one of the failure results.
- Reopening a serial port and the device registry: one send is one line out and one reply or an exception.
- `issue_tag`, `entry_tag` and `return_tag` as commands of their own: they run only as the tail of the command that precedes them.
- Wristband ids are the keys of the wristband map, so they are unique.
- Flows.WriteBand, Flows.ReadBand: the flows use the specification functions of the transfers on values; the loops over arrays are `Chunks.WriteEmbedding` and `Chunks.ReadEmbedding`.
- FlowRunner.Runner.WriteEmbedding, FlowRunner.Runner.ReadEmbedding: wristbands are values in the runner, so aliasing between runner and wristband memory is not modelled there.
- WristbandDevice.Wristband.LoopPass: states a pass with nothing in between; interruptions between its statements are the transition system's, in `Firmware`.
- Firmware.TimeoutEndsBle: a pass that begins in one round of the 32-bit counter and ends in the next, and the first 20000 ms of each later round, are outside it; there the subtraction starts over, as in the code.
- Firmware.WakeCounting: counts lost clears instead of excluding them, since the code ignores a failed clear; `Firmware.WakesExceededIff` is the exact condition.
- FlowLaws.LinkBalance: needs live faces of the wristband's size and the log line out, and states one half; `FlowLaws.LinkBalanceIff` and `FlowLaws.LinkOutlivesIff` are the exact conditions.
- FlowLaws.AgreementHolds: needs returns that read the id and reach the table; `FlowLaws.AgreementIff` is the exact condition.
- Interleaving.GateSafety: face and flag come from one tag step, not always from one wristband; `Interleaving.StraightIff` is the exact condition.
- EndToEnd.NothingPassesAfterReturn: needs the clear to succeed; `EndToEnd.PassAfterReturnIff` covers every return.
- Memories at the granularity of `await`: `Interleaving` follows which client each entry read goes to, not what each write puts where, so the agreement of table and wristbands is a result of `Flows` only, where commands do not overlap.
- Operator.OperatorDevice.WakeWristbandWait: each pause is taken to advance the clock by its 300 ms.
- SerialLines.BoardsAgree: one direction; streams outside its condition may still agree by chance, and `SerialLines.LoneCrDiffers` gives a family that does not.
