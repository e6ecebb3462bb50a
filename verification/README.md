# A verified model of the Sigma fp camera driver

This project models the driver that talks to a Sigma camera over PTP, as one stack:
vendor operations (`Sigma`), PTP transactions (`Ptp`), container framing (`Containers`)
and a byte transport (`Transport`), together with the payload codecs carried inside it
(`Slots`, `Group1` to `Group5`, `Groups`, `Focus`, `ApiConfig`, `Records`, `Text`,
`FixedPoint`), the exposure-value converter (`Apex`) and the queue transport the driver
is tried on (`FakeTransport`). `Operations`, `Payloads`, `SingleFields`, `Decoding`,
`FocusBytes` and `ConfigBytes` say in plain numbers which bytes are sent and what is made
of the bytes that arrive, so that the theorems do not rest on a table or a constant alone.

The transport is a machine over an arbitrary state type: the device and the way it cuts
its bytes into reads are unknown. `Link` gives one step of it for a write, a bulk read
and an interrupt read; `Sound` says that a read fits the driver's buffer and that empty
reads do not go on for ever. The driver objects are classes whose methods run on this
machine. Each method states the whole new state: the bytes written, the next transaction
id, the transport state and the result. Loops of the driver are loops here, proved equal
to recursive functions, and what the driver promises is proved about those functions.

The main results, hardest first:

* **Downloads.** `Download.EndToEnd` composes all layers. Over any device that answers part
  requests with bytes of a file, cut into reads anyhow and with up to eight stray events
  before each reply, a chunked download ends without error in a prefix of the file. The
  requests lie end to end, and truncated replies leave no gap. If no reply is truncated
  and the chunk size is positive the result is the file, in ceil(size / chunk) requests.
  `Download.ObjectTold` is for any device: only the last reply may be an error, empty or
  short, an error is the result, and otherwise the result is all data received. A description
  that is not answered or cannot be read is an error, and no part is asked for
  (`DescriptionUnanswered`, `DescriptionUnreadable`).
* **Settings.** `SetThenGet.GetAfterRun`: after any run of sets and gets, reading a group gives
  the normal form of the value last set for it, or what the device held before.
* **Transactions.** The byte-level receiver refines a small protocol over containers
  (`Protocol.ReceiveFollowsProtocol`), and `Protocol.SuccessShape` says exactly which
  container sequences succeed and `Protocol.FailureShape` which fail, how, and after how many
  containers. `Protocol.TransactionCorrect` is the law field by field: response code, parameters
  and data are those of the containers, byte for byte. `Protocol.ChunkingIndependence` says exactly when
  reassembly does not depend on the cut: when the first read holds the 12-byte header.
* **Group codecs.** The five straight-line decoders and encoders are proved equal to one
  table-driven codec, about which success, independence from earlier field values,
  round trip with normalisation, and byte-exact re-encoding are proved once. `Payloads` gives
  the bytes of any group, with every presence bit, the order of the fields and the values that
  stand for missing ones; `SingleFields` those of each field on its own, and `Decoding` what is
  read from payloads with all bits set, from each reserved bit, and from any header and parity.
* **Directories.** In-place index writes are undone by the decoder, and lookup takes the last
  usable entry of a tag. That the order of entries with distinct tags does not matter is false
  of the code: it accepts payloads that lie in the index itself (`OverlappingPayloadMoves` is such
  a blob, for each of the two directories). `Focus.EntryOrderDoesNotMatter` and
  `ApiConfig.EntryOrderDoesNotMatter` say exactly when all orders decode alike: when every byte
  that is kept from an out-of-line payload is outside the index, or the same in every entry at
  its place; or when the decoder fails, in the same way, on all of them.
* **Write log.** After every run of the driver, and whatever the device answers, the log is a
  sequence of well-formed containers, the k-th command carries id k modulo 2^32, and DATA
  directly follows its command with the same opcode. That DATA also carries the id of its
  command is false of the code: the driver fetches that id through a pointer into the command
  buffer, which may have moved while parameters were appended. The model lets any id be fetched
  once there are parameters. `WriteLog.RunIsSafe` says that a run is safe exactly when every call
  with both parameters and data happens to fetch its own id, `WriteLog.EveryRunIsSafe` that it is
  safe whatever is fetched if and only if no call has both, and `VendorLog.ClearingSendsAnyId` names
  an input the driver really uses. Of the vendor operations modelled here only clearing an image
  has both: `VendorLog.EveryRunIsSafe` says that a run of them is safe whatever is fetched if and
  only if it clears no image.
* **Polling.** `Polling.PollingOnTheWire`: from status records in containers, cut anyhow, the
  driver makes as many requests as it takes to reach an end, at most as many as asked for.
  `Polling.EndsByCode` says by their codes which statuses end it: 0x0005, 0x8003, or the 16th one
  that is none of seven known ones.

`ReferenceCamera` is a concrete device that meets the assumptions of the end-to-end theorems,
so they speak about something. On it they hold for every file that fits its description and
a positive chunk size, for every run of settings if the payloads it holds at first fit in a
container, and for every sequence of statuses that decides a polling.

Exceptions are errors. So is undefined behaviour where a read leaves a buffer (`Overrun`);
where it only yields an unknown value (the id above) any value is allowed. Where a property is
false of the code, it is stated with the exact condition under which it holds: the id of a data
phase (`RunIsSafe`), chunking (`ChunkingIndependence`), surplus bytes (`SurplusHandling`),
positions in the focus directory (`FocusRoundTrip`, with the input of `LongPositionIsLost`), the
order of directory entries (`EntryOrderDoesNotMatter`, with the input of
`OverlappingPayloadMoves`) and codes of repeated values (`RoundTripCondition`).

A download need not end: `OverAcknowledgingNeverEnds` is a device on which none of at least one byte does, with any chunk
size but 2^32 - 1; with that one every download ends (`GreatestChunkReturns`), and so does every
one on a device that never acknowledges more than it is asked for (`BoundedDownloadEnds`).
`GetObjectVendor` is proved for every device on which the download ends.

In three more places the code does something a reader may not expect, and the model follows the
code. The focus encoder announces an offset for a payload of more than four bytes but never
appends the payload: `data` stays empty (src/sigma/schema.cpp:835, 866-873). The first read
of a container is returned whole when it already covers the announced length, so surplus
bytes are not cut there (src/ptp/ptp.cpp:14-15). The focus decoder reads the type of an entry
and takes the payload for bytes whatever it says (src/sigma/schema.cpp:890-902).

## Model

| member | source | states |
|---|---|---|
| Ptp.CameraPTP.ReadFullContainer | src/ptp/ptp.cpp:5-25 | the reassembly loop, for any transport: the container bytes, or the error of the first read that fails |
| Ptp.CameraPTP.OpenSession | src/ptp/ptp.cpp:27-38 | writes exactly one 16-byte command under the next id and consumes one container |
| Ptp.CameraPTP.CloseSession | src/ptp/ptp.cpp:40-50 | writes exactly one 12-byte command under the next id and consumes one container |
| Ptp.CameraPTP.SendRequest | src/ptp/ptp.cpp:52-78 | command phase and optional data phase under one fresh id; with parameters the data phase carries whatever is fetched through the stale pointer |
| Ptp.CameraPTP.ReceiveResponse | src/ptp/ptp.cpp:80-139 | the receiving state machine: at most eight events skipped, optional DATA, RESPONSE |
| Ptp.CameraPTP.ParseParams | src/ptp/ptp.cpp:108-136 | the parameter walk returns the words between header and length, and fails exactly when it would leave the buffer |
| Ptp.CameraPTP.Transact | src/ptp/ptp.cpp:52-140 | a whole transaction: bytes written, next id, transport state and result for every device behaviour and every fetched id |
| Ptp.CameraPTP.ParseHandles | src/ptp/ptp.cpp:217-244 | both loops of the handle parser |
| Ptp.CameraPTP.GetObjectHandles | src/ptp/ptp.cpp:208-245 | a transaction followed by the handle parser |
| Ptp.CameraPTP.WaitObjectAdded | src/ptp/ptp.cpp:142-162 | the first ObjectAdded event among timeout/poll interrupt reads, no later read made, none missed |
| Ptp.HandlesRoundTrip | src/ptp/ptp.cpp:217-235 | a count-prefixed list of up to 2^30 - 2 handles comes back whatever follows it |
| Ptp.HandlesFallback | src/ptp/ptp.cpp:236-244 | a payload whose count does not fit is read as its complete words |
| Containers.FrameFields | src/ptp/ptp.cpp:62-78 | every header field and the payload are read back from a framed container, whatever follows |
| Ptp.HandlesOverrun | src/ptp/ptp.cpp:217-244 | fewer than 4 bytes are no handles; parsing fails if and only if the 32-bit size test wraps around and the handles are not all there |
| Ptp.AddedObjectIs | src/ptp/ptp.cpp:148-157 | an event names an object if and only if it has 16 bytes, type 4 and code 0x4002; the handle is at bytes 12 to 15 |
| Ptp.TruncDivIs | src/ptp/ptp.cpp:142-147 | the number of interrupt reads is timeout over poll, rounded toward zero |
| Ptp.ParamsOfFrame | src/ptp/ptp.cpp:108-136 | a response's parameters are the words of its payload; one that is no whole number of words makes the walk leave the buffer |
| Ptp.ShortDataOverruns | src/ptp/ptp.cpp:94-99 | a DATA container that announces fewer than 12 bytes is read outside its buffer |
| Protocol.ChunkingIndependence | src/ptp/ptp.cpp:5-25 | reassembly gives the container bytes and stops right after them for any cut whose first read has 12 bytes; otherwise it is a short header |
| Protocol.ContainerStarves | src/ptp/ptp.cpp:5-25 | a container of which the rest does not arrive times out |
| Protocol.SurplusHandling | src/ptp/ptp.cpp:14-24 | bytes past the announced length are cut after several reads and kept after a single one |
| Protocol.ReceiveFollowsProtocol | src/ptp/ptp.cpp:80-139 | the byte-level receiver gives the verdict of the container protocol and consumes exactly the containers it used |
| Protocol.ExchangeSucceeds | src/ptp/ptp.cpp:80-139 | up to eight events (type 4), optional DATA (2), RESPONSE (3): the response code, the parameters and the data are theirs byte for byte, and nothing later is touched |
| Protocol.SuccessShape | src/ptp/ptp.cpp:80-139 | a container sequence succeeds if and only if it has that shape |
| Protocol.FailureShape | src/ptp/ptp.cpp:80-139 | which container sequences end in which error, and after how many containers |
| Protocol.NinthEventFails | src/ptp/ptp.cpp:87-92 | nine leading events end the transaction with an error, after the ninth |
| Protocol.TransactionCorrect | src/ptp/ptp.cpp:52-140 | a transaction answered by such an exchange, cut anyhow, returns its response code, parameters and data byte for byte and consumes exactly it |
| Protocol.TransactionFails | src/ptp/ptp.cpp:80-139 | one answered by a sequence of another shape fails with its error |
| Protocol.TransactionTimesOut | src/ptp/ptp.cpp:80-139 | one for which the containers run out before they decide it times out |
| Operations.SessionRequests | src/ptp/ptp.cpp:27-50 | the bytes of the two session commands |
| Operations.HandlesRequest | src/ptp/ptp.cpp:208-216 | the bytes of the command that asks for handles |
| Operations.RequestBytes | src/ptp/ptp.cpp:52-78 | the bytes of any request: header fields, parameters, data and the id of the data phase |
| Operations.DescriptionOnTheWire | src/sigma/sigma_ptp.cpp:195-202 | the bytes sent for a description, and its outcome from that of the transaction |
| Operations.LatestOnTheWire | src/sigma/sigma_ptp.cpp:181-193 | the same for the latest picture |
| Operations.PartOnTheWire | src/sigma/sigma_ptp.cpp:205-222 | the same for a part: address, start and size in this order |
| Operations.StatusOnTheWire | src/sigma/sigma_ptp.cpp:71-97 | the same for the capture status; the picture id is sent unless it is 0 |
| Operations.SnapOnTheWire | src/sigma/sigma_ptp.cpp:140-155 | shooting sends 0, mode, amount, 0, and returns the response code |
| Operations.ClearOnTheWire | src/sigma/sigma_ptp.cpp:170-178 | clearing sends the picture id and ten zero bytes |
| Operations.SetOnTheWire | src/sigma/sigma_ptp.cpp:317-330 | setting sends the payload under the opcode of its kind and returns the response as it is |
| Operations.GetOnTheWire | src/sigma/sigma_ptp.cpp:298-315 | getting sends the opcode of its kind and decodes the data of the answer |
| Operations.GetFails | src/sigma/sigma_ptp.cpp:312-314 | it is an error if and only if the payload lacks bytes its presence word asks for; otherwise the fields are those decoded |
| WriteLog.CallKeepsSafe | src/ptp/ptp.cpp:27-78 | each call keeps the log in order and adds one command; it keeps DATA ids right if and only if it has no parameters, no data, or fetches its own id |
| WriteLog.RunIsSafe | src/ptp/ptp.cpp:27-78 | after every run: well-formed containers, the k-th command has id k mod 2^32, DATA directly follows its command with the same opcode; it has the same id throughout if and only if every call with parameters and data fetches its own |
| WriteLog.EveryRunIsSafe | src/ptp/ptp.cpp:27-78 | DATA ids are right whatever is fetched if and only if no call of the run has both parameters and data |
| WriteLog.ExposedSendsAnyId | src/ptp/ptp.cpp:52-78 | on a fresh driver every call with parameters and data sends DATA with whatever id was fetched, right or not |
| WriteLog.Perform | src/ptp/ptp.cpp:27-140 | a call of the driver object writes what the run says, keeps the log in order, and safe unless it has parameters and data |
| WriteLog.PerformAll | src/ptp/ptp.cpp:27-140 | a run of calls on a fresh driver object, on every device |
| VendorLog.StatusRequestsKeepOrder | src/sigma/sigma_ptp.cpp:99-137 | the requests of a polling keep the log in order, and DATA ids right if they were |
| VendorLog.PartRequestsKeepOrder | src/sigma/sigma_ptp.cpp:259-274 | so do the requests of a download |
| VendorLog.StepKeepsOrder | src/sigma/sigma_ptp.cpp:71-222 | each of the ten operations (capture status, waiting, snap, clearing, the two picture descriptions, a part, a download, setting and getting a group) keeps the log in order, and DATA ids right unless it is a clearing that fetches another id |
| VendorLog.RunIsSafe | src/sigma/sigma_ptp.cpp:71-222 | a run of them is safe if and only if every clearing fetches its own id |
| VendorLog.EveryRunIsSafe | src/sigma/sigma_ptp.cpp:71-222 | a run of them is safe whatever is fetched if and only if it clears no image |
| VendorLog.ClearingSendsAnyId | src/sigma/sigma_ptp.cpp:170-178 | clearing an image on a fresh driver sends DATA with whatever id was fetched |
| VendorLog.Perform | src/sigma/sigma_ptp.cpp:71-222 | each of the ten operations of the camera object leaves the transport state, next id and log of its step |
| VendorLog.PerformAll | src/sigma/sigma_ptp.cpp:71-222 | a run of them leaves those of the whole run, in order, and safe if it clears no image |
| FakeTransport.BuildResp | src/ptp/fake_transport.cpp:3-16 | the pushed bytes are the framed response with its parameters |
| FakeTransport.FakeTransport.WriteExact | src/ptp/fake_transport.cpp:33-40 | the write is logged, and only a command changes the remembered id |
| FakeTransport.FakeTransport.ReadSome | src/ptp/fake_transport.cpp:42-52 | an automatic reply is queued first if nothing is; then at most max bytes are taken off the front |
| FakeTransport.FakeTransport.EnsureAutoOk | src/ptp/fake_transport.cpp:65-69 | an OK response to the last command is queued exactly when the queue is empty and the id is not 0 |
| FakeTransport.FakeTransport.ReadIntr | src/ptp/fake_transport.cpp:54-63 | at most max bytes are taken off the front of the interrupt queue |
| FakeTransport.FakeTransport.Close | src/ptp/fake_transport.cpp:26-31 | the log and the queue are emptied, the remembered id is not |
| FakeTransport.IdleFakeAnswersOk | src/ptp/fake_transport.cpp:33-52 | with nothing queued every transaction ends OK without data or parameters if its id is not 0, and with a short header if it is |
| FakeTransport.QueuedResponseIsReturned | src/ptp/fake_transport.cpp:3-52 | a queued response of any size that fits its length field is returned with its code and parameters, whatever id it carries |
| FakeTransport.ReadsTakeTheFront | src/ptp/fake_transport.cpp:42-63 | a read of either queue takes as many bytes as there are, up to its size, off the front, and changes nothing else |
| FakeTransport.BufferSizes | src/ptp/ptp.cpp:5-25 | the driver's bulk reads take at most 1 MiB and its interrupt reads at most 64 bytes |
| FakeTransport.BytesAreConserved | src/ptp/fake_transport.cpp:18-52 | over every run without close, bytes delivered and bytes left are the bytes queued, automatic replies included |
| Sigma.SigmaCamera.Snap | src/sigma/sigma_ptp.cpp:140-155 | one transaction with the four payload bytes, and its response code |
| Sigma.SigmaCamera.ClearImageDbSingle | src/sigma/sigma_ptp.cpp:170-178 | one transaction with the picture id and ten zero bytes, whose DATA carries whatever id is fetched |
| Sigma.SigmaCamera.GetLatestPictFileInfo2 | src/sigma/sigma_ptp.cpp:181-193 | one transaction without parameters and the record decoded from its data, or the error |
| Sigma.SigmaCamera.GetPictFileInfo2 | src/sigma/sigma_ptp.cpp:195-202 | one transaction and the record decoded from its data, or the error |
| Sigma.SigmaCamera.GetBigPartialPictFile | src/sigma/sigma_ptp.cpp:205-222 | one transaction for address, start and size, and the part decoded from its data |
| Sigma.SigmaCamera.GetObjectVendor | src/sigma/sigma_ptp.cpp:251-276 | the whole download on every device on which the loop ends: bytes, requests written and their ids |
| Sigma.SigmaCamera.DownloadAll | src/sigma/sigma_ptp.cpp:259-274 | its loop, with both counters in 32 bits |
| Sigma.SigmaCamera.GetCamCaptStatus | src/sigma/sigma_ptp.cpp:71-97 | one transaction, with the image id as parameter unless it is 0 |
| Sigma.SigmaCamera.WaitCompletion | src/sigma/sigma_ptp.cpp:99-137 | the polling loop: requests written, result and next id |
| Sigma.SigmaCamera.SetGroup | src/sigma/sigma_ptp.cpp:318-330 | sends the encoded group under its set opcode; sends nothing if the group cannot be encoded |
| Sigma.SigmaCamera.GetGroup | src/sigma/sigma_ptp.cpp:299-315 | a fresh group object decoded from the reply to the get opcode |
| Download.DownloadTold | src/sigma/sigma_ptp.cpp:259-275 | on any device: each request follows from the replies before it, only the last reply is an error, empty or short, or leaves nothing, and the result is its error or all data received |
| Download.ObjectTold | src/sigma/sigma_ptp.cpp:251-276 | the same of a whole download whose description can be read |
| Download.DescriptionUnanswered | src/sigma/sigma_ptp.cpp:195-202 | a description whose transaction fails is that error, and no part is asked for |
| Download.DescriptionUnreadable | src/sigma/schema.cpp:626-654 | so is one below 36 bytes, or without two NULs from byte 36 on |
| Download.DownloadUndescribed | src/sigma/sigma_ptp.cpp:251-276 | both on the camera object: the error, and one command written |
| Download.BoundedDownloadEnds | src/sigma/sigma_ptp.cpp:259-274 | on a device that never acknowledges more than asked for the loop ends, in at most as many requests as bytes are left |
| Download.OverAcknowledgingNeverEnds | src/sigma/sigma_ptp.cpp:259-274 | for every size above 0 and every chunk size but 2^32 - 1 there is a device on which the count of bytes left wraps around and the loop never ends |
| Download.GreatestChunkEnds | src/sigma/sigma_ptp.cpp:259-274 | with a chunk size of 2^32 - 1 the loop ends on every device |
| Download.GreatestChunkReturns | src/sigma/sigma_ptp.cpp:251-276 | so with it the driver returns from every download |
| Download.MoreRequestsAllowed | src/sigma/sigma_ptp.cpp:259-274 | the outcome of a download that ends does not depend on how many requests it is allowed |
| Download.DownloadFrom | src/sigma/sigma_ptp.cpp:259-274 | from any point of a download whose bytes so far are the file's prefix: it ends, prefix kept, requests end to end, the whole file unless a reply is truncated |
| Download.ChainsTile | src/sigma/sigma_ptp.cpp:259-274 | request i is for the i-th chunk, and a whole file takes ceil(size / chunk) requests |
| Download.EndToEnd | src/sigma/sigma_ptp.cpp:251-276 | the download theorem over all layers |
| Download.DownloadFile | src/sigma/sigma_ptp.cpp:251-276 | the same of the camera object: it returns a prefix of the file, and the file if no reply is truncated |
| Download.ZeroChunk | src/sigma/sigma_ptp.cpp:261-266 | chunk size 0 makes one empty request and returns nothing |
| Records.StatusRoundTrip | src/sigma/schema.cpp:599-611 | every field of a capture status comes back from its record, whatever follows |
| Polling.PollingBound | src/sigma/sigma_ptp.cpp:99-137 | min(polls, first completed + 1, 16th unexpected + 1) requests; the last status read, or the default one without polls |
| Polling.PollingOnTheWire | src/sigma/sigma_ptp.cpp:71-137 | the same from status records delivered in containers, after stray events and cut anyhow |
| Polling.Await | src/sigma/sigma_ptp.cpp:99-137 | the same of the loop on the camera object: requests written and status returned |
| Polling.EndsByCode | src/sigma/sigma_ptp.cpp:113-132 | a status ends the polling if and only if it is 0x0005 or 0x8003, or the 16th that is none of the seven known ones |
| Polling.CompletionEnds | src/sigma/sigma_ptp.cpp:106-136 | while the status is 0x0001, 0x0002, 0x0004, 0x8001 or 0x8002 the driver polls on, and the first completed one is returned |
| Polling.SixteenthUnknownEnds | src/sigma/sigma_ptp.cpp:127-131 | unknown statuses are borne until the 16th, which is returned |
| Polling.PollsRunOut | src/sigma/sigma_ptp.cpp:104-136 | otherwise all polls are made and the last status is returned, or the empty record without a poll |
| Polling.FailureEnds | src/sigma/sigma_ptp.cpp:106-108 | a status that cannot be had ends the polling in its error |
| Polling.AwaitCompletion | src/sigma/sigma_ptp.cpp:99-137 | waiting for a completed status on the camera object |
| SetThenGet.GetReplays | src/sigma/sigma_ptp.cpp:299-315 | a get returns the fields of what the device holds, and changes nothing |
| SetThenGet.RunIsKept | src/sigma/sigma_ptp.cpp:299-330 | after any run of sets and gets the device holds, for each group, the encoding of the last value set |
| SetThenGet.GetAfterRun | src/sigma/sigma_ptp.cpp:299-330 | reading a group after any run of sets and gets gives the normal form of the value last set, or what was held before |
| SetThenGet.SetAndGet | src/sigma/sigma_ptp.cpp:299-330 | the same of the camera object: setting a group and reading it back returns its normal form |
| SetThenGet.FreshRoundTrip | src/sigma/sigma_ptp.cpp:299-315 | an encoded group decoded into a fresh object gives its normal form |
| ReferenceCamera.FileIsDownloaded | src/sigma/sigma_ptp.cpp:251-276 | on a concrete device any file that fits its description is downloaded whole in ceil(size / chunk) requests |
| ReferenceCamera.PollingIsBounded | src/sigma/sigma_ptp.cpp:99-137 | on a concrete device polling ends as its statuses say |
| ReferenceCamera.SettingsComeBack | src/sigma/sigma_ptp.cpp:299-330 | on a concrete device settings come back in normal form |
| Slots.SetBitCommutes | src/sigma/schema.cpp:12-55 | presence bits may be set in any order |
| Slots.ParseSucceeds | src/sigma/schema.cpp:57-129 | decoding succeeds if and only if the payload has 4 bytes plus the widths of the set presence bits |
| Slots.ParseForgets | src/sigma/schema.cpp:57-129 | a successful decode depends neither on earlier field values nor on trailing bytes |
| Slots.RoundTrip | src/sigma/schema.cpp:12-129 | decoding a printed table gives back every field, quantised, for any coherent table and fields |
| Slots.SurvivorsPrintAlike | src/sigma/schema.cpp:246-291 | quantised fields print to the same bytes as the fields they came from |
| Slots.Reencode | src/sigma/schema.cpp:12-129 | an exact-length payload without bits outside the table prints again byte for byte, header and parity zero |
| Group1.Decode | src/sigma/schema.cpp:57-129 | the straight-line decoder equals the table-driven one: success, fields, and fields left after a failure |
| Group1.Encode | src/sigma/schema.cpp:12-55 | the straight-line encoder prints the writable fields by the table |
| Group2.Decode | src/sigma/schema.cpp:183-243 | as for group 1 |
| Group2.Encode | src/sigma/schema.cpp:132-181 | as for group 1 |
| Group3.Decode | src/sigma/schema.cpp:293-351 | as for group 1, with little-endian words and 12.4 focal lengths |
| Group3.Encode | src/sigma/schema.cpp:246-291 | as for group 1, focal lengths quantised |
| Group4.Decode | src/sigma/schema.cpp:420-490 | as for group 1, with four reserved bytes skipped and a six-byte block under one bit |
| Group4.Encode | src/sigma/schema.cpp:354-418 | as for group 1, missing lens corrections written as Off beside ones that are set |
| Group5.Decode | src/sigma/schema.cpp:534-596 | as for group 1, with four interval bytes under one bit |
| Group5.Encode | src/sigma/schema.cpp:493-532 | as for group 1, missing remains written as 0; an uneven interval is refused |
| Groups.GroupRoundTrip | src/sigma/schema.cpp:12-596 | decode after encode is normalisation for all five groups, and the normal form encodes to the same bytes |
| Groups.NormalIsIdempotent | src/sigma/schema.cpp:12-532 | normalising twice is normalising once |
| Groups.NormalSurvives | src/sigma/schema.cpp:12-596 | a normal form has nothing left to be quantised |
| Groups.ViewIsInjective | src/sigma/schema.cpp:57-129 | two groups with the same fields in the table are the same group |
| Groups.CanonicalReencoding | src/sigma/schema.cpp:12-596 | an exact-length payload with only writable bits is re-encoded byte for byte, header and parity zero |
| Groups.CamDataGroup.Encode | src/sigma/schema.cpp:12-532 | encoding of whichever group the object is |
| Groups.CamDataGroup.Decode | src/sigma/schema.cpp:57-596 | decoding in place: kind kept, fields by the table, on failure too |
| GroupSteps.ParseStops | src/sigma/schema.cpp:57-129 | a decode that runs out of bytes has set the fields before that point and kept the others |
| Payloads.Payload1 | src/sigma/schema.cpp:57-129 | the bytes of any group 1 with its read-only fields: presence word, fields in order, parity |
| Payloads.Wire1 | src/sigma/schema.cpp:12-55 | the bytes sent of any group 1: the eight writable fields |
| Payloads.Payload2 | src/sigma/schema.cpp:132-181 | the bytes of any group 2 |
| Payloads.Payload3 | src/sigma/schema.cpp:246-291 | the bytes of any group 3 |
| Payloads.Payload4 | src/sigma/schema.cpp:354-418 | the bytes of any group 4; beside a lens correction that is set, 2 or 0xFE for one that is not |
| Payloads.Payload5 | src/sigma/schema.cpp:493-532 | the bytes of any group 5 and when it is refused; 0 for remains that are not set |
| SingleFields.Alone1A | src/sigma/schema.cpp:12-55 | shutterSpeed, aperture and programShift, each on its own: presence word, the byte, parity |
| SingleFields.Alone1B | src/sigma/schema.cpp:12-55 | isoAuto, isoSpeed and expComp, each on its own: presence word, the byte, parity |
| SingleFields.Alone1C | src/sigma/schema.cpp:12-55 | abValue and abSetting, each on its own: presence word, the byte, parity |
| SingleFields.Alone2A | src/sigma/schema.cpp:132-181 | driveMode, specialMode and exposureMode, each on its own: presence word, the byte, parity |
| SingleFields.Alone2B | src/sigma/schema.cpp:132-181 | aeMeteringMode, flashType and flashMode, each on its own: presence word, the byte, parity |
| SingleFields.Alone2C | src/sigma/schema.cpp:132-181 | flashSetting and whiteBalance, each on its own: presence word, the byte, parity |
| SingleFields.Alone2D | src/sigma/schema.cpp:132-181 | resolution and imageQuality, each on its own: presence word, the byte, parity |
| SingleFields.Alone3A | src/sigma/schema.cpp:246-291 | colorSpace, colorMode and batteryKind, each on its own: presence word, the byte, parity |
| SingleFields.Alone3B | src/sigma/schema.cpp:246-291 | afAuxLight and afBeep, each on its own: presence word, the byte, parity |
| SingleFields.Alone3C | src/sigma/schema.cpp:246-291 | timerSound and destToSave, each on its own: presence word, the byte, parity |
| SingleFields.FocalLengths3 | src/sigma/schema.cpp:246-291 | a focal length of x sixteenths is the little-endian word x |
| SingleFields.Alone4A | src/sigma/schema.cpp:354-418 | dcCropMode, lvMagnifyRatio and highISOExt, each on its own: presence word, the byte, parity |
| SingleFields.Alone4B | src/sigma/schema.cpp:354-418 | contShootSpeed, hdr and dngQuality, each on its own: presence word, the byte, parity |
| SingleFields.Alone4C | src/sigma/schema.cpp:354-418 | eImageStab and shutterSound, each on its own: presence word, the byte, parity |
| SingleFields.FillLight4 | src/sigma/schema.cpp:354-418 | fill light in two's complement |
| SingleFields.Corrections4 | src/sigma/schema.cpp:354-418 | for every group 4 of corrections alone: the values set, 2, 2, 2, 2, 0xFE, 2 in place of the others |
| SingleFields.Alone5 | src/sigma/schema.cpp:493-532 | aspectRatio, toneEffect and afAuxLightEF, each on its own: presence word, the byte, parity |
| SingleFields.ColourTemperature5 | src/sigma/schema.cpp:493-532 | the colour temperature is a little-endian word |
| SingleFields.Interval5 | src/sigma/schema.cpp:493-532 | an interval with its remains, which are zero bytes if they are not set |
| SingleFields.HalfInterval5 | src/sigma/schema.cpp:493-532 | remains without an interval are not sent; half an interval is refused |
| Decoding.EndsDoNotMatter | src/sigma/schema.cpp:57-129 | header, parity and trailing bytes do not matter |
| Decoding.DecodesAnyEnds | src/sigma/schema.cpp:57-129 | what printed bytes decode to, they decode to between any header and parity and before any other bytes |
| Decoding.DecodesStatus | src/sigma/schema.cpp:57-129 | the bytes of a group 1 with its read-only fields decode to it, over any fields held before |
| Decoding.Full1 | src/sigma/schema.cpp:57-129 | with all sixteen bits set: which byte each field is read from, and how many bytes it takes |
| Decoding.Full2 | src/sigma/schema.cpp:183-243 | the same for a group 2 |
| Decoding.Full3 | src/sigma/schema.cpp:293-351 | the same for a group 3 |
| Decoding.Full4 | src/sigma/schema.cpp:420-490 | the same for a group 4 |
| Decoding.Full5 | src/sigma/schema.cpp:534-596 | the same for a group 5 |
| Decoding.Reserved1 | src/sigma/schema.cpp:57-129 | 0x0080 on its own stands for one byte that is skipped |
| Decoding.Reserved2 | src/sigma/schema.cpp:183-243 | 0x8000, 0x4000, 0x2000, 0x1000, 0x0002 and 0x0010, each on its own, stand for one byte that is skipped |
| Decoding.Reserved3A | src/sigma/schema.cpp:293-351 | 0x0100, 0x0200 and 0x0400, each on its own, stand for one byte that is skipped |
| Decoding.Reserved3B | src/sigma/schema.cpp:293-351 | 0x0004, 0x0008, 0x0010 and 0x0040, each on its own, stand for one byte that is skipped |
| Decoding.Reserved4 | src/sigma/schema.cpp:420-490 | 0x0100, 0x0200, 0x0400 and 0x0800, each on its own, stand for one byte that is skipped |
| Decoding.Reserved5A | src/sigma/schema.cpp:534-596 | 0x0400, 0x1000, 0x4000 and 0x8000, each on its own, stand for one byte that is skipped |
| Decoding.Reserved5B | src/sigma/schema.cpp:534-596 | 0x0001, 0x0002, 0x0004 and 0x0008, each on its own, stand for one byte that is skipped |
| Decoding.Reserved5C | src/sigma/schema.cpp:534-596 | 0x0010, 0x0020 and 0x0040, each on its own, stand for one byte that is skipped |
| Decoding.Unused4 | src/sigma/schema.cpp:420-490 | two bits stand for no byte |
| Directory.LastOfMany | src/sigma/schema.cpp:890-956 | of several usable entries with a tag the one that comes last counts |
| Directory.LastOfDistinct | src/sigma/schema.cpp:890-956 | with distinct tags the last usable entry of a tag is the only one |
| Directory.LastPermuted | src/sigma/schema.cpp:890-956 | the last usable value of a tag does not depend on the order of entries with distinct tags |
| Directory.SteadyIffAlike | src/sigma/schema.cpp:900-913 | the kept bytes of all entries are the same in every order of the index if and only if each is outside the index or the same in every entry at its place |
| Directory.BehindIndexIsSteady | src/sigma/schema.cpp:900-913 | payloads behind the index, as a camera lays them out, are so |
| Focus.CamDataGroupFocus.Encode | src/sigma/schema.cpp:784-874 | the in-place index writes give the index of the set fields |
| Focus.CamDataGroupFocus.WriteEntry | src/sigma/schema.cpp:837-871 | one entry: tag, type, count and padded payload or offset (by numbers in `FocusBytes.EncodedEntry`), the other bytes untouched |
| Focus.CamDataGroupFocus.Decode | src/sigma/schema.cpp:877-957 | the decoding loop in place: cleared first, then the entries in order |
| FocusBytes.EntriesInOrder | src/sigma/schema.cpp:801-818 | the entries of any settings, in the order of their tags |
| FocusBytes.EncodedSize | src/sigma/schema.cpp:820-833 | the blob begins with its size, 8 + 12k, and the number k of entries |
| FocusBytes.EncodedEntry | src/sigma/schema.cpp:837-871 | the bytes of every entry: tag, type 1, count, and the padded payload or the size |
| FocusBytes.EntriesAreBytes | src/sigma/schema.cpp:847-850 | the type of every entry is 1 |
| FocusBytes.AloneA | src/sigma/schema.cpp:784-874 | the blob of focusMode, afLock and faceEyeAF, each on its own |
| FocusBytes.AloneB | src/sigma/schema.cpp:784-874 | the blob of focusArea, onePointSelection and dmfSize, each on its own |
| FocusBytes.AloneC | src/sigma/schema.cpp:784-874 | the blob of preConstAF and focusLimit, each on its own |
| FocusBytes.PositionAlone | src/sigma/schema.cpp:784-874 | the blob of a position of up to four bytes |
| FocusBytes.NoIndex | src/sigma/schema.cpp:877-888 | a blob without its whole index sets nothing |
| FocusBytes.DecodesOne | src/sigma/schema.cpp:890-956 | what an entry of each tag sets, with its payload inside it or elsewhere in the blob |
| FocusBytes.DecodesNothing | src/sigma/schema.cpp:902-916 | an entry with an empty or missing payload sets nothing, or is read outside the blob |
| FocusBytes.LaterEntryCounts | src/sigma/schema.cpp:890-956 | of two entries with the same tag the second counts |
| Focus.DecodeLooksUp | src/sigma/schema.cpp:890-956 | decoding stays in bounds if and only if no bounds check wraps around, and then each field comes from the last usable entry with its tag |
| Focus.EntryOrderDoesNotMatter | src/sigma/schema.cpp:890-956 | for distinct tags: every order decodes alike if and only if decoding fails, or every kept byte of an out-of-line payload is outside the index or the same in every entry at its place |
| Focus.OverlappingPayloadMoves | src/sigma/schema.cpp:909-912 | a blob of two entries whose position depends on their order |
| Focus.FocusRoundTrip | src/sigma/schema.cpp:784-957 | for every group: what each field decodes to after encoding. Settable fields come back and read-only ones are cleared, except that dmfPos comes back if and only if it has 1 to 4 bytes; the blob has 8 + 12k bytes with size and k in its header |
| Focus.LongPositionIsLost | src/sigma/schema.cpp:866-873 | a five-byte position does not come back |
| ApiConfig.ApiConfig.Decode | src/sigma/schema.cpp:674-771 | the decoding loop in place; a faulty entry ends it and keeps what earlier entries set |
| ApiConfig.WalkLooksUp | src/sigma/schema.cpp:690-770 | each field comes from the last usable entry with its tag; for the version, one of a matching float type and size |
| ConfigBytes.NoIndex | src/sigma/schema.cpp:674-688 | a blob without its whole index sets nothing |
| ConfigBytes.UnknownKind | include/sigma/enum.h:21-51 | an entry of a type other than 1 to 12 is an error |
| ConfigBytes.DecodesText | src/sigma/schema.cpp:690-740 | which string an entry of tag 1, 2 or 3 sets, of any type, with its payload inside it or elsewhere |
| ConfigBytes.DecodesVersion | src/sigma/schema.cpp:690-767 | which version an entry of tag 5 sets from a float of 4 or 8 bytes, and that any other entry sets none |
| ConfigBytes.DecodesNothing | src/sigma/schema.cpp:707-713 | an entry whose payload is missing sets nothing, or is read outside the blob |
| ConfigBytes.VersionIsFound | src/sigma/schema.cpp:742-767 | a version under a distinct tag is found from its bytes |
| ConfigBytes.LaterEntryCounts | src/sigma/schema.cpp:690-770 | of two entries with the same tag the second counts |
| ApiConfig.StringIsFound | src/sigma/schema.cpp:718-740 | a string stored with or without its NUL under a distinct tag is found |
| ApiConfig.EntryOrderDoesNotMatter | src/sigma/schema.cpp:690-770 | the same condition for blobs without faults; with a fault, every order decodes alike if and only if all faults are the same and no entry sets a field |
| ApiConfig.OverlappingPayloadMoves | src/sigma/schema.cpp:707-713 | a blob of two entries whose model name depends on their order |
| Records.DecodeInfo | src/sigma/schema.cpp:626-654 | the picture description, or the error of a short or unterminated payload |
| Records.InfoRoundTrip | src/sigma/schema.cpp:626-654 | every field and both NUL-free names come back, whatever follows |
| Records.InfoFields | src/sigma/schema.cpp:626-654 | from which bytes each field of a description is read |
| Records.InfoFails | src/sigma/schema.cpp:626-654 | a description cannot be read if and only if it has fewer than 36 bytes, or not two NULs from byte 36 on |
| Records.PartFields | src/sigma/schema.cpp:657-664 | from which bytes a part is read; an error if and only if there are fewer than 4 |
| Records.StatusFields | src/sigma/schema.cpp:599-611 | from which bytes a status is read; an error if and only if there are fewer than 8 |
| Records.PartRoundTrip | src/sigma/schema.cpp:657-664 | part data come back in full whatever follows, and as far as there are any when truncated |
| Text.ReadCStr | include/utils/utils.h:97-107 | the string up to the first NUL and the position after it |
| Text.CStrFound | include/utils/utils.h:97-107 | a NUL-free string is found wherever it stands |
| Text.CStrFails | include/utils/utils.h:97-107 | reading fails if and only if no NUL follows |
| Text.Hex2Bin | include/utils/utils.h:122-139 | the scanning loop with its pending nibble and its two errors |
| Text.Bin2Hex | include/utils/utils.h:142-149 | two lower-case digits a byte between single spaces |
| Text.HexShape | include/utils/utils.h:142-149 | the characters of every printed byte, and the blank after it |
| Text.UnhexIs | include/utils/utils.h:122-139 | reading fails if and only if there is another character or an odd number of digits; each byte is the value of two digits of either case |
| Text.HexRoundTrip | include/utils/utils.h:122-149 | reading printed bytes gives them back |
| Text.BlanksDoNotMatter | include/utils/utils.h:122-139 | white space and underscores anywhere do not matter |
| FixedPoint.DecodeIsSixteenth | include/utils/utils.h:83-86 | a code is decoded to that many sixteenths |
| FixedPoint.CodeRoundTrip | include/utils/utils.h:83-94 | every 16-bit code survives decoding and encoding |
| FixedPoint.ValueRoundTrip | include/utils/utils.h:83-94 | a value in range moves by at most 1/32; others go to the nearest end |
| FixedPoint.EncodeRounds | include/utils/utils.h:88-94 | a value in range goes to the nearest sixteenth, half way to the upper one |
| FixedPoint.EncodeIsMonotone | include/utils/utils.h:88-94 | encoding never falls as the value rises |
| Bytes.Le16Inverse | include/utils/utils.h:28-58 | a little-endian word is read back exactly where its bytes stand |
| Bytes.Be16Inverse | include/utils/utils.h:22-45 | the same for big-endian words |
| Bytes.Le32Inverse | include/utils/utils.h:61-80 | the same for 32 bits |
| Bytes.LittleEndian | include/utils/utils.h:61-80 | the four bytes of a 32-bit value, lowest first |
| Bytes.QuadIsRead | include/utils/utils.h:61-67 | the value four bytes are read as |
| Bytes.WrapsAround | src/sigma/sigma_ptp.cpp:270-271 | 32-bit sums and differences are the exact ones modulo 2^32 |
| Bytes.Put16LeAt | include/utils/utils.h:34-38 | a store changes the two bytes at its position and no other |
| Bytes.Put32LeAt | include/utils/utils.h:69-74 | a store changes the four bytes at its position and no other |
| Apex.SortByValue | src/utils/apex.cpp:8-9 | a rearrangement of the table in order of value |
| Apex.ApexConverter.DecodeUint8 | src/utils/apex.cpp:12-18 | the value of the first row with the code |
| Apex.DecodesFirst | src/utils/apex.cpp:12-18 | that row is the first one, and no value is returned only without such a row |
| Apex.ApexConverter.EncodeUint8 | src/utils/apex.cpp:20-27 | a code of a listed value at minimal distance, the lower value on a tie |
| Apex.DecodeOfEncode | src/utils/apex.cpp:12-27 | with distinct codes, decoding the returned code gives that nearest value |
| Apex.DecodedCodesAreMonotone | src/utils/apex.cpp:12-27 | the represented value never falls as the input rises |
| Apex.EncodeClamps | src/utils/apex.cpp:20-27 | inputs beyond the table go to its ends |
| Apex.TieTakesLower | src/utils/apex.cpp:20-27 | half way between two neighbours exactly the codes of the lower one can be returned |
| Apex.RoundTripCondition | src/utils/apex.cpp:12-27 | a listed code is sure to survive if and only if every row with its value has that code |
| Apex.CodeSurvives | src/utils/apex.cpp:12-27 | without repeated values every listed code survives |

## Left out

- The USB transport, libusb, time, sleeps and logging. A write always succeeds, and a timeout of a bulk read is a failed read of the link. Casts of buffer lengths to `int` are not modelled.
- `get_storage_ids`, the no-argument `get_object_handles`, `get_latest_image`, `ViewFrame`, `mask_tid`, `to_string` and the one-call wrappers around `transact`, with them the calls that send and fetch the focus directory and the device description: they add no property beyond the transaction and the codec.
- Enumeration members: a field that is an enumeration is a byte, since the decoders cast any byte.
- IEEE rounding: focal lengths, exposure values and their tables are reals; the version of the device description is kept as the words it is stored in.
- The seven converter tables of src/utils/apex.cpp are not transcribed; every theorem holds for any non-empty table. The order `std::sort` gives rows of equal value is unspecified, so results are stated for every order.
- Objects split for proof: `transact` is `SendRequest` and `ReceiveResponse`; the loops of `get_object_vendor` and `wait_completion`, and single statements of the directory encoder and decoders, are methods of their own; the group codecs are split into two or three parts and into presence word and fields.
- Group1.Decode: takes and returns the fields as one record instead of updating an object member by member; `Groups.CamDataGroup` updates the object once, with the fields as they stand when the decoder stops. The same holds for groups 2 to 5.
- Group1.Encode: sets presence bits in the order of the table; `Slots.SetBitCommutes` says that the order does not matter.
- Groups.CamDataGroup.Decode: the five classes are one class over a sum of five records.
- Records.DecodeInfo: the record is returned as a value, not filled in place; so are the part and the capture status.
- Sigma.SigmaCamera.GetObjectVendor: speaks of devices on which the loop ends, as the driver does not return on any other; `n` is any number of requests that suffices.
- Sigma.SigmaCamera.WaitCompletion: a negative number of polls is no poll, as in the driver; the pause between polls is not modelled.
- Ptp.CameraPTP.WaitObjectAdded: asks for a poll interval other than 0, by which the driver divides.
- FakeTransport.IdleFakeAnswersOk: a second bulk read of nothing in a row is a failed read, where the source returns 0 bytes again and again and a driver in the middle of a container would read on for ever. The flag `auto_ok` is always set.
- Focus.CamDataGroupFocus.Decode: after a read outside the blob the fields are unspecified.
- ApiConfig.EntryOrderDoesNotMatter: versions are compared as the words they are stored in, so two that denote one number, such as 0 and -0, count as different.
- SetThenGet.GetAfterRun: the focus directory is not among the groups set and read.
