# RoverPampa link and mission logic in Dafny

RoverPampa is a mobile app that drives a camera rover over Bluetooth Low Energy. It
uses the Nordic UART service. This project models the app's rover link protocol and
the bookkeeping around it, and proves properties of the model:

- **The wire codec** (`wire_codec.dfy`, module `WireCodec`):
  - the `META:` header parsers, one accepting `,seq=` and one without it;
  - the `C`,`H`,seqHi,seqLo chunk frame;
  - the terminator rule for outbound commands;
  - the direction echo;
  - the prefix classification that turns a notification into at most one photo event;
  - the routing of one notification to the registered callbacks.
- **The JavaScript built-ins the code leans on** (`js_runtime.dfy`, module `JsRuntime`):
  - `trim`, `startsWith` and the last element of `split`;
  - `parseInt`, including its `0x` prefix and its tolerance of trailing text;
  - `Number.prototype.toString`, `padStart`, and `%`, which truncates toward zero.
- **The sparse slot array photos are reassembled in** (`reassembly.dfy`, module `Reassembly`):
  - `new Array(n)` gives holes;
  - stores grow the array;
  - `some`, `filter` and `reduce` skip holes;
  - the offset-advancing copy loop is a method over an `array<byte>`.
- **The link itself** (`ble_link.dfy`, class `BleLink.Link`):
  - the connection state;
  - scan de-duplication;
  - command writes with their fallback;
  - the keep-alive repeater;
  - the reconnect schedule;
  - notification dispatch.
- **Manual photo capture** (`photo_capture.dfy`, class `PhotoCapture.Capture`): the
  `handleNotification` state machine of the capture hook.
- **Autonomous photo capture** (`autonomous_capture.dfy`, class `AutonomousCapture.Receiver`):
  - the `onBegin`/`onMeta`/`onChunk`/`onDone`/`onEnd` handlers of the autonomous mission page;
  - the obstacle gating of its text callback.
- **The mission list** (`missions.dfy`, module `Missions`):
  - create, activate, pause, resume, finish, sync and delete as list transforms;
  - `mergeMissions` as a method with the two map-filling loops;
  - selection of the active mission.
- **The servo controller** (`servo_control.dfy`, class `ServoControl.Controller`):
  - clamp;
  - `SV1:`/`SV2:` commands;
  - the 100 ms rate limit;
  - the debounce slot;
  - the status machine.
- **Duration display** (`mission_timer.dfy`, module `MissionTimer`): `formatDuration`,
  `getCurrentDuration` and the autonomous page's `getElapsedTime`.

Timers, transport callbacks and plugin results are explicit inputs:
- a method such as `Expire`, `KeepAliveTick` or `ReconnectFire` is the timer firing;
- a boolean parameter such as `primaryOk`/`fallbackOk` says whether a plugin call succeeded;
- times are integer milliseconds.

The model keeps the code's behaviour as written, including these quirks:

- **Holes in the slot array.** `new Array(n)` creates holes, and `Array.prototype.some`
  skips them. The "some slot is empty" guards therefore never hold
  (`Reassembly.SomeFalsyChunkNever`). A photo with a missing chunk then reaches the copy
  loop, which throws on the hole. `Reassembly.Assemble` returns `None` exactly when a slot
  is empty. The capture handlers turn that into "the handler stops there":
  - for a manual capture, the state stays `saving` and the notification falls through to
    the chunk branch;
  - in an autonomous mission, nothing changes.
- **NaN sequence numbers.** `PHOTO:START` and `PHOTO:DONE` deliver `NaN` as the sequence
  number, which is `None` here, and `NaN !== x` always holds. A photo opened by
  `PHOTO:START` therefore rejects every later `PHOTO:BEGIN`
  (`AutonomousCapture.NaNOpenRejectsBegin`). `PHOTO:DONE` never completes an autonomous
  photo (`AutonomousCapture.NaNNeverEnds`).
- **The `seq - 1` fallback.** The autonomous chunk handler uses index `seq - 1` when `seq`
  is one past the end. One-based frames therefore never fill slot 0 when there are two or
  more chunks, and the last frame collides with the one before it
  (`AutonomousCapture.OneBasedFramesMissSlotZero`).
- **The reconnect effect never fires.** The transport's disconnect callback clears the
  device before setting `disconnected`, so the effect's guard "disconnected with a device"
  never holds (`BleLink.Link.TransportDisconnected`, `BleLink.Link.Render`).
- **`connect` swallows its errors.** A scheduled reconnect therefore always resets the
  attempt counter and never schedules a second attempt (`BleLink.Link.ReconnectFire`).
  Any commit that changes the state or the device cancels a pending reconnect timer.
- **The scan window ends in `idle`.** The end of the fifteen-second scan window sets `idle`
  whatever the state is by then, including `connected` (`BleLink.Link.ScanWindowEnd`).
- **Pan and tilt share one debounce timer.** A debounced pan followed by a debounced tilt
  sends only the tilt (`ServoControl.DebounceSlotShared`). `reset` writes `SV1:90`. The
  last-command time is taken when that first send is accepted, before its write is
  awaited, and the second send starts once the write completes. `SV2:90` is therefore
  dropped whenever the second send starts less than 100 ms after the first was accepted,
  that is whenever the first write takes under 100 ms (`ServoControl.ResetRateLimitsSecond`).
- **Two different `META:` parsers.** The capture hook's and the mission page's `parseMeta`
  have no `,seq=` group. Given a header that carries `,seq=`, they still match, but the
  width and height are lost (`WireCodec.ParseMetaNoSeqOfRender`).
- **`onDone` and `onEnd` treat a size mismatch differently.** `onDone` stops when a non-zero
  announced size differs from the received bytes. `onEnd` assembles anyway.
- **The mission timer never finds its mission.** The timer component reads
  `activeMissionId` from `useMissions` (src/components/MissionTimer.tsx:5), but the hook
  does not return that name (src/hooks/useMissions.ts:272-286). The lookup is therefore
  always `undefined` and the timer shows no mission. `MissionTimer.CurrentDuration` models
  the duration formula the timer would apply to a mission.

The text of a notification is taken to be one character per byte. This is the
`dataViewToText` of the BLE plugin, which is not part of this model.

## Model

| member | source | states |
|---|---|---|
| JsRuntime.Trim | src/hooks/useBLE.ts:214 | the trimmed text is a contiguous slice of the input that neither starts nor ends with JavaScript whitespace and drops only whitespace |
| JsRuntime.LastSegment | src/hooks/useBLE.ts:220-221 | the last element of `split(':')` is a suffix without the separator, preceded by the separator unless it is the whole text |
| JsRuntime.LastSegmentAfter | src/hooks/useBLE.ts:220-221 | after a prefix ending in `:`, a separator-free tail is exactly the last segment |
| JsRuntime.ParseMagnitude | src/hooks/useBLE.ts:221 | a magnitude is found only when the text at the start position begins with a digit |
| JsRuntime.ParseInt | src/hooks/useBLE.ts:221 | `parseInt` yields a number only if the text contains a digit; `None` stands for `NaN` |
| JsRuntime.ParseMagnitudeOfDigits | src/hooks/useBLE.ts:80-81 | the decimal digits of `n`, followed by the end or by whitespace, parse back to `n` |
| JsRuntime.NatToString | src/components/MissionTimer.tsx:26 | `toString` of a natural number is a non-empty run of digits with no leading zero |
| JsRuntime.NatToStringValue | src/components/MissionTimer.tsx:26 | the digits of `toString(n)` have decimal value `n` |
| JsRuntime.IntToString | src/hooks/useServoControl.ts:105 | the template rendering of an integer is non-empty and holds no `:` and no whitespace |
| JsRuntime.ParseIntOfIntToString | src/hooks/useBLE.ts:221 | `parseInt` inverts integer rendering, whatever whitespace-led text follows |
| JsRuntime.ParseIntOfSigned | src/hooks/useBLE.ts:221 | an optional `-` and the digits of `n` parse to `n` or `-n` |
| JsRuntime.PadStart | src/components/MissionTimer.tsx:26 | `padStart` yields at least the target width, never shortens, and puts only fill characters before the original text |
| JsRuntime.JsRem | src/pages/AutonomousMission.tsx:491-492 | `%` agrees with the mathematical remainder for non-negative operands; for negative ones it lies in `(-b, 0]`; in both cases the dividend minus the remainder is a multiple of the divisor, which pins the truncated remainder |
| WireCodec.BytesToText | src/hooks/useBLE.ts:210 | the notification text has one character per byte, with the byte's code |
| WireCodec.FieldEndSpec | src/hooks/useBLE.ts:77 | a `tag\d+` group ends after the longest run of digits following the tag, and is absent when no digit follows |
| WireCodec.SearchMetaLeftmost | src/hooks/useBLE.ts:77 | the unanchored match is the leftmost position where the header matches |
| WireCodec.SearchMetaComplete | src/hooks/useBLE.ts:77 | if the header matches anywhere after the search start, the search finds a match |
| WireCodec.MatchAtHasHeader | src/hooks/useBLE.ts:77 | a match at a position means `META:size=<digits>,chunks=<digits>` occurs there |
| WireCodec.HeaderMatchAt | src/hooks/useBLE.ts:77 | conversely, wherever that header occurs, the pattern matches |
| WireCodec.ParseMetaIffHeader | src/hooks/useBLE.ts:76-85 | `parseMeta` succeeds iff the text contains the header somewhere; the parser without `,seq=` succeeds on exactly the same texts |
| WireCodec.ParseMetaOfRender | src/hooks/useBLE.ts:76-85 | a rendered header with optional `,seq=`, `,w=`, `,h=` parses back to its size, chunks, width and height, and the seq is discarded |
| WireCodec.MatchAtSkipsAfterSeq | src/hooks/usePhotoCapture.ts:64 | without the `,seq=` group, a header carrying `,seq=` yields size and chunks with no width or height |
| WireCodec.ParseMetaNoSeqOfRender | src/hooks/usePhotoCapture.ts:61-75 | the capture-hook parser recovers the whole header when no `,seq=` is present and loses width and height when it is |
| WireCodec.SeqNumber | src/hooks/useBLE.ts:248 | `(hi << 8) \| lo` is below 65536, with `hi` and `lo` as its base-256 digits |
| WireCodec.DecodeChunk | src/hooks/useBLE.ts:246-252 | a buffer is a chunk frame iff it has at least four bytes and starts with 67, 72; the payload is bytes 4.. |
| WireCodec.DecodeEncodeChunk | src/hooks/usePhotoCapture.ts:77-83 | decoding a frame built from a sequence number below 65536 and a payload gives them back |
| WireCodec.EncodeDecodeChunk | src/hooks/usePhotoCapture.ts:77-83 | every buffer the decoder accepts is rebuilt exactly from its sequence number and payload |
| WireCodec.ChunkIsNoTextLine | src/hooks/usePhotoCapture.ts:164-211 | a chunk frame's text starts with none of `META:`, `DONE` or `BUSY`, so it reaches the binary branch |
| WireCodec.FrameCommand | src/hooks/useBLE.ts:277-278 | a `\n` is appended iff the command is longer than one character and does not already end in `\n` |
| WireCodec.FrameCommandIdempotent | src/hooks/useBLE.ts:277-278 | framing an already framed command changes nothing |
| WireCodec.DirectionOf | src/hooks/useBLE.ts:305 | a command is a direction iff it is exactly one of `F B L R S U D` |
| WireCodec.EchoOf | src/hooks/useBLE.ts:240-244 | an echo is a one-character text mapped into `F B L R S`, and there is one exactly when the text is a direction |
| WireCodec.EchoOfDirection | src/hooks/useBLE.ts:240-244 | `U` echoes as `F`, `D` as `B`, and every other direction as itself |
| WireCodec.ClassifyNeedsLetter | src/hooks/useBLE.ts:216-239 | a text that starts with none of `P`, `M`, `D` triggers no photo event |
| WireCodec.SeqFieldOfRendered | src/hooks/useBLE.ts:220-223 | the integer after the last `:` of a rendered line is read back |
| WireCodec.ClassifyBegin | src/hooks/useBLE.ts:219-223 | `PHOTO:BEGIN:<n>` is a begin event with sequence `n` |
| WireCodec.ClassifyEnd | src/hooks/useBLE.ts:234-238 | `PHOTO:END:<n>` is an end event with sequence `n` |
| WireCodec.ClassifyMeta | src/hooks/useBLE.ts:224-227 | a rendered header line is a meta event carrying that header |
| WireCodec.ClassifyRenderEvent | src/hooks/useBLE.ts:216-239 | every photo event's line, under the fixed prefix order, classifies back to the same event |
| WireCodec.Route | src/hooks/useBLE.ts:205-253 | a notification reaches the raw callback when one is registered and the text callback (trimmed) iff it is non-empty; a photo event is delivered iff the text classifies as one whose callback is registered, and then as classified; the chunk callback receives exactly the decoded frame when registered and nothing otherwise; the echo is the text's |
| WireCodec.ChunkFramesAreNotEvents | src/hooks/useBLE.ts:216-252 | a chunk frame never classifies as a photo event or an echo, so a notification never yields both an event and a chunk |
| WireCodec.ChunkFramesReachText | src/hooks/useBLE.ts:209-252 | a chunk frame is also delivered to the text callback |
| WireCodec.RouteDeliversEvent | src/hooks/useBLE.ts:216-239 | a rendered event line, with or without a line ending, reaches a registered callback as exactly that event and never as a chunk |
| WireCodec.RouteDeliversChunk | src/hooks/useBLE.ts:246-252 | an encoded chunk frame reaches a registered chunk callback as that frame and raises no photo event |
| Reassembly.Holes | src/hooks/usePhotoCapture.ts:172 | `new Array(n)` has length `n` and every slot empty |
| Reassembly.JsArraySet | src/pages/AutonomousMission.tsx:288 | an indexed store sets that slot, grows the array with holes when past the end, and keeps every other slot |
| Reassembly.StoreFirst | src/hooks/usePhotoCapture.ts:220-221 | a chunk is stored only into an empty slot; a filled slot keeps its first payload |
| Reassembly.StoreFirstKeepsFirst | src/hooks/usePhotoCapture.ts:220-221 | a duplicate sequence number never overwrites, so the first write wins |
| Reassembly.StoreFirstCommutes | src/pages/AutonomousMission.tsx:287-288 | chunks for different slots may arrive in either order with the same result |
| Reassembly.Filled | src/hooks/usePhotoCapture.ts:222 | the filled count is at most the length, and equals it iff every slot is filled |
| Reassembly.FilledHoles | src/hooks/usePhotoCapture.ts:172-173 | freshly allocated holes add nothing to the filled count, so progress starts at 0 |
| Reassembly.FilledUpdate | src/hooks/usePhotoCapture.ts:221-222 | filling a slot raises the count by one exactly when the slot was empty |
| Reassembly.FilledStoreFirst | src/hooks/usePhotoCapture.ts:220-224 | a first-wins store raises the received count by one iff it lands in an empty slot |
| Reassembly.Concat | src/hooks/usePhotoCapture.ts:189-196 | the assembled image's length is the sum of the payload lengths |
| Reassembly.ConcatPlacesChunk | src/hooks/usePhotoCapture.ts:192-196 | every payload appears in the image at the offset given by the lengths of the slots before it, in index order |
| Reassembly.SomeFalsyChunkNever | src/hooks/usePhotoCapture.ts:180 | the "some slot is empty" test never holds, because `some` skips holes and a `Uint8Array` is truthy |
| Reassembly.SetAt | src/hooks/usePhotoCapture.ts:194 | `jpeg.set(chunk, offset)` replaces exactly the bytes at `offset` with the chunk and keeps the rest |
| Reassembly.Assemble | src/hooks/usePhotoCapture.ts:190-196 | the copy loop completes iff every slot is filled, and then yields the concatenation, of the reduced total length |
| PhotoCapture.Capture.constructor | src/hooks/usePhotoCapture.ts:41-49 | idle, no error, no header, no slots, zero progress, no timer, nothing sent or saved |
| PhotoCapture.Capture.ClearState | src/hooks/usePhotoCapture.ts:51-59 | forgets the header and the slots, zeroes the progress and cancels the timeout, and keeps everything else |
| PhotoCapture.Capture.StartCapture | src/hooks/usePhotoCapture.ts:136-265 | without a device only the error is set; otherwise the capture is `requesting`, writes `PHOTO` once and arms the no-response timeout; a failing plugin call ends in `error` with the failure text and a cleared transfer |
| PhotoCapture.Capture.Notify | src/hooks/usePhotoCapture.ts:148-228 | nothing happens before the handler is registered; a `META:` line that `parseMeta` rejects gives `Invalid META format` with the transfer kept, a valid one records the header with one hole per chunk, progress 0/chunks and state `receiving`, and above the array limit only the header (the line then falls through to the chunk branch, where it is no frame); a `DONE` line without a header gives `Image incomplete` with the transfer cleared, a complete one with a successful save is concatenated, saved, becomes the current photo, `done` and cleared, otherwise it stays `saving`; a `BUSY` line gives the busy error and clears the transfer; any other buffer is stored first-wins in its slot when it is a frame in range; only a saved photo changes the current photo; the no-data timeout is re-armed unless the branch cleared it |
| PhotoCapture.Capture.HandleMeta | src/hooks/usePhotoCapture.ts:164-177 | a rejected header sets `Invalid META format` and keeps the transfer; a valid one allocates one hole per chunk with progress 0/chunks and state `receiving` |
| PhotoCapture.Capture.HandleDone | src/hooks/usePhotoCapture.ts:179-204 | without a header, `Image incomplete` with a cleared transfer; with every slot filled and the save succeeding, the slots are concatenated in order, saved, and the capture is `done` and cleared; otherwise it stays `saving` and falls through |
| PhotoCapture.Capture.HandleBusy | src/hooks/usePhotoCapture.ts:206-211 | `Device busy. Try again.`, state `error`, transfer cleared |
| PhotoCapture.Capture.HandleChunk | src/hooks/usePhotoCapture.ts:216-227 | a frame is stored only with a header, a sequence below the chunk count and an empty slot, first write wins, and the received count then goes up by one |
| PhotoCapture.Capture.Expire | src/hooks/usePhotoCapture.ts:153-158 | the pending timeout's message becomes the error, the state `error`, and the transfer is cleared |
| PhotoCapture.Capture.Cancel | src/hooks/usePhotoCapture.ts:267-271 | clears the transfer, goes back to `idle` and clears the error |
| PhotoCapture.MetaLineOfRender | src/hooks/usePhotoCapture.ts:164-177 | a header line as the firmware writes it takes the `META:` branch and is accepted with its own fields |
| PhotoCapture.FrameTakesChunkBranch | src/hooks/usePhotoCapture.ts:214-227 | an encoded chunk frame passes none of the three text tests and reaches the chunk branch as that frame |
| AutonomousCapture.NaNOpenRejectsBegin | src/pages/AutonomousMission.tsx:236 | a photo opened with the NaN sequence rejects every later begin, while a closed one accepts any |
| AutonomousCapture.NaNNeverEnds | src/pages/AutonomousMission.tsx:338 | a NaN end never completes a photo, and neither does any end for a NaN-opened photo; the open sequence does |
| AutonomousCapture.ChunkIndex | src/pages/AutonomousMission.tsx:285-287 | a frame maps to `seq` when in range, otherwise to `seq - 1` when that is in range, and the index is always below the chunk count |
| AutonomousCapture.OneBasedFramesMissSlotZero | src/pages/AutonomousMission.tsx:285-288 | with one-based frames and two or more chunks, slot 0 is never filled and the last frame lands on the slot before it |
| AutonomousCapture.Receiver.constructor | src/pages/AutonomousMission.tsx:35-56 | idle mission, no photo open, no obstacle session, no counters, nothing saved |
| AutonomousCapture.Receiver.StartMission | src/pages/AutonomousMission.tsx:400-424 | without a connection nothing changes; when the start command is written the mission runs from `now` with the photo counter at zero; when it throws the mission is back to `idle`; the photo transfer, the byte count, the end mark and the obstacle session are untouched |
| AutonomousCapture.Receiver.PauseMission | src/pages/AutonomousMission.tsx:426-437 | the mission is `paused` once `MISSION:PAUSE` is written and every other field keeps its value; nothing changes when that write throws |
| AutonomousCapture.Receiver.ResumeMission | src/pages/AutonomousMission.tsx:439-448 | the mission is `running` once `RESUME` is written and every other field keeps its value; nothing changes when that write throws |
| AutonomousCapture.Receiver.StopMission | src/pages/AutonomousMission.tsx:450-467 | once `MISSION:PAUSE` is written the mission is `stopped` with the two-second return to idle pending and every other field keeps its value; nothing changes when that write throws |
| AutonomousCapture.Receiver.NewObstacleSession | src/pages/AutonomousMission.tsx:239-240 | the next session id becomes the open session, the session counter goes up by one and the photo count is zero; every other field of the page keeps its value |
| AutonomousCapture.Receiver.OnBegin | src/pages/AutonomousMission.tsx:234-258 | outside a running mission, or with another sequence open, nothing changes; otherwise the sequence is opened, the header, slots, byte counter, end mark and progress are reset, the timeout armed, and without a session a new one is opened with its photo count at zero (an existing session and its count are kept); every other field of the page keeps its value |
| AutonomousCapture.Receiver.OpenPhoto | src/pages/AutonomousMission.tsx:237-256 | the photo is open under the sequence with no header, no slots, no bytes, no end mark and the timeout armed; every other field of the page keeps its value |
| AutonomousCapture.Receiver.OnMeta | src/pages/AutonomousMission.tsx:260-278 | only while running with a photo open: the header is recorded and one hole per chunk allocated with progress 0/chunks, no bytes and the timeout armed; above the array limit only the header is recorded; every other field of the page keeps its value |
| AutonomousCapture.Receiver.OnChunk | src/pages/AutonomousMission.tsx:280-303 | a frame lands in its `seq` or `seq - 1` slot only when running, in range and empty; progress counts the filled slots, the bytes add up and the timeout is re-armed; every other field of the page keeps its value; otherwise nothing changes |
| AutonomousCapture.Receiver.Finish | src/pages/AutonomousMission.tsx:320-325 | header, slots and open sequence are cleared and the timeout cancelled |
| AutonomousCapture.Receiver.Save | src/pages/AutonomousMission.tsx:326-333 | a successful save appends the photo with its obstacle session and index and bumps both photo counters |
| AutonomousCapture.Receiver.OnDone | src/pages/AutonomousMission.tsx:305-334 | while running it marks the end; with a header, all slots filled and a matching (or zero) size the photo is assembled in slot order, the transfer closed and the photo saved, and on a successful save the mission and obstacle photo counters each go up by one; otherwise the transfer and both counters are kept |
| AutonomousCapture.Receiver.OnEnd | src/pages/AutonomousMission.tsx:336-365 | only for the open sequence; with all slots filled the photo is assembled whatever its size and saved and the transfer closed, the mission and obstacle photo counters each go up by one on a successful save, and the end mark, byte count, start time and sessions are untouched; otherwise nothing changes |
| AutonomousCapture.Receiver.Expire | src/pages/AutonomousMission.tsx:247-254 | an armed timeout leaves no header, no slots, no open sequence, no progress and not receiving; every other field of the page keeps its value; an unarmed one changes nothing |
| AutonomousCapture.Receiver.OnObstacle | src/pages/AutonomousMission.tsx:176-183 | opens a new obstacle session with no photos and requests a photo iff running, under the per-obstacle limit, not receiving and with no sequence open; every other field of the page keeps its value |
| AutonomousCapture.Receiver.OnAckTurn | src/pages/AutonomousMission.tsx:185-189 | closes the obstacle session and zeroes its photo count; every other field of the page keeps its value |
| AutonomousCapture.Receiver.OnMissionEnd | src/pages/AutonomousMission.tsx:190-216 | the mission is `stopped`, the session closed and the header and slots dropped, with a return to idle pending; every other field of the page keeps its value |
| AutonomousCapture.Receiver.Settle | src/pages/AutonomousMission.tsx:210-213 | a pending return to idle makes the mission `idle` and clears the start time; every other field of the page keeps its value; without one nothing changes |
| AutonomousCapture.Receiver.OnText | src/pages/AutonomousMission.tsx:175-232 | `MISSION:OBSTACLE` opens a new session with no photos and requests a photo iff the mission is running, the previous count is under the limit, no photo is being received and none is open; `ACK:TURN` closes the session; `MISSION:END` and its synonyms stop the mission, close the session, drop the header and slots and leave a return to idle pending; in each of these every other field keeps its value; any other line changes nothing and requests nothing |
| BleLink.DisplayName | src/hooks/useBLE.ts:155 | the name is the non-empty local name, else the device name, else `Unknown` |
| BleLink.AddDevice | src/hooks/useBLE.ts:150-158 | a result is appended only when its id is new, so ids stay unique and the earlier list is kept as a prefix |
| BleLink.ScanListFirstWins | src/hooks/useBLE.ts:149-160 | the device list has unique ids, contains every result's id, and holds for each id its first result |
| BleLink.ReconnectDelay | src/hooks/useBLE.ts:357-358 | the delay is one of 1000, 2000, 5000, 10000 ms, and 10000 from the third attempt on |
| BleLink.ReconnectDelayMonotone | src/hooks/useBLE.ts:357-358 | more attempts never mean a shorter delay |
| BleLink.Link.constructor | src/hooks/useBLE.ts:19-36 | idle, no devices, no device connected, last command `S`, no timers, no callbacks |
| BleLink.Link.Render | src/hooks/useBLE.ts:374-384 | a commit that changes the state or device cancels the pending reconnect, and the reconnect guard never holds after it |
| BleLink.Link.SetSubscribers | src/hooks/useBLE.ts:48-74 | replaces the single-slot callbacks and nothing else |
| BleLink.Link.Scan | src/hooks/useBLE.ts:115-178 | the device list is emptied; an initialisation failure or a failing scan ends in `idle` with the error; otherwise the state is `scanning` with the window armed |
| BleLink.Link.ScanResult | src/hooks/useBLE.ts:149-160 | during a scan a result is added first-wins with rssi defaulting to 0 and the fallback name |
| BleLink.Link.ScanWindowEnd | src/hooks/useBLE.ts:165-172 | stops the scan; with nothing found that is an error; the state becomes `idle` whatever it was |
| BleLink.Link.Connect | src/hooks/useBLE.ts:180-265 | success means `connected` to the device with the counter reset; failure means `idle` with the error; it never throws |
| BleLink.Link.TransportDisconnected | src/hooks/useBLE.ts:186-192 | the device is cleared, the state is `disconnected` and the counter reset, so the reconnect guard is false |
| BleLink.Link.Write | src/hooks/useBLE.ts:267-312 | not connected means no write; otherwise the framed payload is written by either path, and the last command changes only for a direction |
| BleLink.Link.StartKeepAlive | src/hooks/useBLE.ts:314-328 | any repeater is replaced by `(command, interval)` after one immediate write; when that write goes out the command is sent and becomes the last command, else neither changes; the connection, scan, callbacks and reconnect fields are untouched |
| BleLink.Link.KeepAliveTick | src/hooks/useBLE.ts:323-325 | an active repeater on a connected link writes its command once per tick and it becomes the last command; otherwise nothing is written; the connection, scan, callbacks and reconnect fields are untouched |
| BleLink.Link.StopKeepAlive | src/hooks/useBLE.ts:330-337 | no repeater afterwards, and exactly one `S` is written, only when one was active |
| BleLink.Link.Unmount | src/hooks/useBLE.ts:379-392 | the effects' cleanups cancel the repeater and any pending reconnect, without writing and without touching the connection |
| BleLink.Link.Disconnect | src/hooks/useBLE.ts:339-352 | with a device, `S` is written first; only if that and the transport disconnect succeed is the device forgotten and the state `idle` |
| BleLink.Link.AttemptReconnect | src/hooks/useBLE.ts:354-372 | nothing without a device or while reconnecting or connected; otherwise `reconnecting` with a connect scheduled after the delay for the attempt count |
| BleLink.Link.ReconnectFire | src/hooks/useBLE.ts:363-371 | the scheduled connect resets the counter whatever its outcome and schedules nothing further |
| BleLink.Link.Notify | src/hooks/useBLE.ts:205-253 | the notification is routed as `Route` says and an echo becomes the last command |
| Missions.Create | src/hooks/useMissions.ts:91-113 | prepends an inactive, unpaused, pending mission created, started and updated at `now`, with zero paused time and no pause, resume or sync instant, and keeps the existing entries |
| Missions.CreateKeepsInvariants | src/hooks/useMissions.ts:91-113 | with a fresh id, creation keeps ids unique and at most one mission active |
| Missions.MapMatching | src/hooks/useMissions.ts:167 | the update applies to the entries with the id and leaves the others identical |
| Missions.Pause | src/hooks/useMissions.ts:167 | the matching missions become paused at `now`, touched at `now` and pending, with every other field as it was; all other missions are identical |
| Missions.Resume | src/hooks/useMissions.ts:187 | the matching missions are unpaused, resumed at `now`, touched at `now` and pending, with every other field (the pause instant included) as it was; all other missions are identical |
| Missions.Finish | src/hooks/useMissions.ts:207 | the matching missions become inactive, finished at `now`, touched at `now` and pending, with every other field as it was; all other missions are identical |
| Missions.Sync | src/hooks/useMissions.ts:228 | the matching missions are marked synced at `now` and touched at `now`, with every other field as it was; all other missions are identical |
| Missions.PauseThenResume | src/hooks/useMissions.ts:163-201 | pausing then resuming leaves the mission unpaused and keeps every other entry |
| Missions.UpdatesKeepSingleActive | src/hooks/useMissions.ts:163-236 | pause, resume, finish and sync keep ids unique and at most one mission active |
| Missions.Activate | src/hooks/useMissions.ts:129-133 | exactly the target is active; it is unpaused and restarted at `now` with its finish, pause, resume and duration fields cleared, the paused total at zero and status `pending`, every other field kept; every other mission is deactivated and touched at `now`, a `synced` status becomes `pending`, and nothing else of it changes |
| Missions.ActivateSingleActive | src/hooks/useMissions.ts:129-133 | after activation at most one mission is active, and one is iff the id exists |
| Missions.Delete | src/hooks/useMissions.ts:242 | exactly the entries with the id are removed |
| Missions.DeleteAbsent | src/hooks/useMissions.ts:242 | deleting an absent id changes nothing |
| Missions.DeleteConcat | src/hooks/useMissions.ts:242 | deletion distributes over concatenation, so the relative order of the rest is kept |
| Missions.DeleteUndoesCreate | src/hooks/useMissions.ts:242 | deleting a freshly created mission gives the list back |
| Missions.FindFirst | src/hooks/useMissions.ts:72 | `find` returns the first entry satisfying the predicate, and none iff there is none |
| Missions.SelectActive | src/hooks/useMissions.ts:72 | a flagged mission is chosen whenever one exists, and it is the first flagged one; otherwise the chosen mission is the first one whose id is the remembered id; there is none iff no mission is flagged and the remembered id is absent or not listed |
| Missions.SelectAfterActivate | src/hooks/useMissions.ts:138 | after activating an existing id, the selected mission is that one |
| Missions.LastWithId | src/hooks/useMissions.ts:44-45 | the map keeps, per id, the last entry set for it |
| Missions.LastWithIdConcat | src/hooks/useMissions.ts:44-45 | a remote entry overrides the local one for the same id |
| Missions.MapSet | src/hooks/useMissions.ts:44-45 | `map.set` keeps keys unique, adds the key, and replaces only that key's entry |
| Missions.MapSetStep | src/hooks/useMissions.ts:44-45 | each `map.set` keeps the map equal to "last entry per id" of the rows seen so far |
| Missions.Insert | src/hooks/useMissions.ts:46 | insertion adds exactly one element |
| Missions.InsertSorted | src/hooks/useMissions.ts:46 | insertion keeps the list sorted by creation time, newest first |
| Missions.InsertUnique | src/hooks/useMissions.ts:46 | insertion of a new id keeps ids unique |
| Missions.SortDesc | src/hooks/useMissions.ts:46 | sorting is a permutation |
| Missions.SortDescSorted | src/hooks/useMissions.ts:46 | the sorted list is newest first |
| Missions.SortDescUnique | src/hooks/useMissions.ts:46 | sorting keeps ids unique |
| Missions.InsertCreatedAt | src/hooks/useMissions.ts:46 | insertion puts the new entry ahead of the entries created at the same instant and keeps their order |
| Missions.SortDescStable | src/hooks/useMissions.ts:46 | the sort is stable: for every creation instant the entries created then keep their input order |
| Missions.SetAll | src/hooks/useMissions.ts:44-45 | each loop leaves the map holding the last entry per id of all rows set so far |
| Missions.SortedMapFacts | src/hooks/useMissions.ts:42-47 | the sorted map values have unique ids, are newest first, cover the union of ids and hold the winning entry per id |
| Missions.MergeMissions | src/hooks/useMissions.ts:42-47 | one entry per id of the union, the remote entry winning a shared id, sorted newest first, with missions created at the same instant kept in the map's insertion order |
| Missions.SetActiveMission | src/hooks/useMissions.ts:124-140 | the stored and shown lists are the activated list, the stored id is the target, and the active mission is the target iff it exists |
| Missions.DeleteMission | src/hooks/useMissions.ts:238-249 | the lists lose the id; the remembered active id and the active mission are cleared iff the remembered id is the deleted one, and otherwise kept |
| Missions.LoadMissions | src/hooks/useMissions.ts:49-82 | the shown list is the merge of remote and local, with unique ids, sorted newest first and holding per id the remote row when there is one; the active mission is selected from it and its id remembered or removed |
| ServoControl.Clamp | src/hooks/useServoControl.ts:52-54 | the angle lies in [0, 180], in-range angles are unchanged, and out-of-range ones go to the nearer bound |
| ServoControl.ClampIdempotentMonotone | src/hooks/useServoControl.ts:52-54 | clamping twice is clamping once, and clamping preserves order |
| ServoControl.ServoCommand | src/hooks/useServoControl.ts:105 | the command starts with `SV1:` or `SV2:` followed by at least one character |
| ServoControl.ParseServoCommandOf | src/hooks/useServoControl.ts:105 | the servo and angle are read back from a command followed by whitespace |
| ServoControl.ServoCommandRoundTrip | src/hooks/useServoControl.ts:105 | a servo command is framed with `\n` on the wire and the servo and angle are read back from it |
| ServoControl.SendWritesAtMostOne | src/hooks/useServoControl.ts:56-94 | a send writes at most one command, and writes iff connected and outside the rate limit |
| ServoControl.SendNotConnected | src/hooks/useServoControl.ts:57-60 | not connected means status `error`, `Não conectado`, and no write |
| ServoControl.SendRateLimited | src/hooks/useServoControl.ts:63-67 | a command less than 100 ms after the last accepted one changes nothing |
| ServoControl.SendAccepted | src/hooks/useServoControl.ts:68-93 | an accepted command leaves the status `sending` with the echo timer armed, or `error` with the failure message when the write throws, and never moves the angles |
| ServoControl.SetAngleWritesOnce | src/hooks/useServoControl.ts:96-113 | an immediate move shows the clamped angle, drops the pending debounced send, stores the angles, and writes its one command exactly when connected and outside the rate limit |
| ServoControl.SetAngleKeepsCoherent | src/hooks/useServoControl.ts:96-113 | setting an angle keeps the controller state coherent |
| ServoControl.SavedKeepsCoherent | src/hooks/useServoControl.ts:48-50 | saving in-range angles keeps the state coherent |
| ServoControl.DebounceFireKeepsCoherent | src/hooks/useServoControl.ts:108-111 | the debounced send keeps the state coherent |
| ServoControl.ResetKeepsCoherent | src/hooks/useServoControl.ts:134-139 | reset keeps the state coherent |
| ServoControl.HandlersKeepCoherent | src/hooks/useServoControl.ts:141-160 | the echo timeout, the OK and error handlers, clearing and unmounting keep the state coherent |
| ServoControl.SendKeepsCoherent | src/hooks/useServoControl.ts:56-94 | a send keeps the state coherent |
| ServoControl.DebounceSlotShared | src/hooks/useServoControl.ts:119-130 | two debounced moves leave only the second pending and write nothing; when the timer fires, at most that second move is written |
| ServoControl.ResetRateLimitsSecond | src/hooks/useServoControl.ts:134-139 | reset centres both angles and saves them, but only `SV1:90` is written when the second send falls within 100 ms |
| ServoControl.StatusHandlers | src/hooks/useServoControl.ts:141-160 | OK gives `success` with no error, an error response gives `error` with its message, and clearing gives `idle` with no error; none writes |
| ServoControl.Controller.constructor | src/hooks/useServoControl.ts:22-32 | both angles at 90, status `idle`, no error, no timers |
| ServoControl.Controller.SendCommand | src/hooks/useServoControl.ts:56-94 | the new state is `Send` of the old one, and stays coherent |
| ServoControl.Controller.SetPan | src/hooks/useServoControl.ts:96-113 | the new state is `SetAngle` for the pan servo, and stays coherent |
| ServoControl.Controller.SetTilt | src/hooks/useServoControl.ts:115-132 | the new state is `SetAngle` for the tilt servo, and stays coherent |
| ServoControl.Controller.FireDebounce | src/hooks/useServoControl.ts:108-111 | the pending debounced send is performed |
| ServoControl.Controller.ResetAngles | src/hooks/useServoControl.ts:134-139 | the new state is `Reset` of the old one |
| ServoControl.Controller.OnEchoTimeout | src/hooks/useServoControl.ts:76-82 | a missing echo leaves status `idle` with the no-echo message |
| ServoControl.Controller.OnOk | src/hooks/useServoControl.ts:141-149 | status `success`, no error, echo timer cancelled, return to idle pending |
| ServoControl.Controller.OnHoldExpired | src/hooks/useServoControl.ts:146-148 | the success hold ends in `idle` |
| ServoControl.Controller.OnError | src/hooks/useServoControl.ts:151-156 | status `error` with the message, echo timer cancelled |
| ServoControl.Controller.Clear | src/hooks/useServoControl.ts:158-160 | status `idle`, no error |
| ServoControl.Controller.Dispose | src/hooks/useServoControl.ts:163-172 | both timers are cancelled |
| MissionTimer.Fields | src/components/MissionTimer.tsx:21-24 | with s = floor(ms/1000), hours·3600 + minutes·60 + seconds = s, and minutes and seconds lie in [0, 59] |
| MissionTimer.FormatDuration | src/components/MissionTimer.tsx:18-27 | 0 or null gives `00:00:00`, and the text is at least eight characters long |
| MissionTimer.Pad2Digits | src/components/MissionTimer.tsx:26 | a padded field is all digits with the field's value, two wide unless longer |
| MissionTimer.Pad2Hours | src/components/MissionTimer.tsx:26 | hours are at least two digits and may be more |
| MissionTimer.Pad2Field | src/components/MissionTimer.tsx:26 | minutes and seconds are exactly two digits |
| MissionTimer.FormatDurationReadsBack | src/components/MissionTimer.tsx:18-27 | reading the clock text back gives floor(ms/1000) seconds |
| MissionTimer.PositiveDurationReadsBack | src/components/MissionTimer.tsx:21-26 | for a positive duration the padded fields read back to the whole seconds |
| MissionTimer.FormatDurationWidth | src/components/MissionTimer.tsx:26 | the text is six characters plus the hour width, and longer than eight from 100 hours on |
| MissionTimer.ElapsedFields | src/pages/AutonomousMission.tsx:489-492 | the elapsed-time fields of a non-negative difference are the duration display's fields |
| MissionTimer.ElapsedTimeIsFormatDuration | src/pages/AutonomousMission.tsx:486-494 | for a non-negative difference the elapsed time equals the duration display |
| MissionTimer.ElapsedTimeRunning | src/pages/AutonomousMission.tsx:486-494 | for a positive difference the elapsed time equals the duration display |
| MissionTimer.ElapsedTimeAtStart | src/pages/AutonomousMission.tsx:486-494 | at the start instant the elapsed time is `00:00:00` |
| MissionTimer.CurrentDuration | src/components/MissionTimer.tsx:29-49 | 0 without a start time; otherwise the time from the start to the instant the clock stopped (the pause instant while paused, else now), less the recorded paused total, clamped at 0 |
| MissionTimer.FreshRunDuration | src/components/MissionTimer.tsx:29-49 | a mission started `d` ms ago with no paused time and not paused shows exactly `d` |
| MissionTimer.RunningDurationGrowsExactly | src/components/MissionTimer.tsx:35-48 | once a running duration is positive it grows by exactly the time that passes |
| MissionTimer.PausedDurationFrozen | src/components/MissionTimer.tsx:43-46 | while paused with a pause time, the duration does not move with the clock and equals the running duration at the pause instant |
| MissionTimer.RunningDurationTracksClock | src/components/MissionTimer.tsx:35-48 | while not paused, the duration never decreases as the clock advances and never gains more than the time passed |

## Left out

- The BLE plugin is not part of this model. Initialisation, scanning, connecting, service discovery, `startNotifications`, both write calls and `disconnect` are boolean inputs for success or failure. The text of a notification is assumed to be one character per byte.
- Timers and clocks (`setTimeout`, `setInterval`, `Date.now()`) are explicit events and integer parameters. A timer the code leaks, such as a second echo timer or a debounced send after unmount, is not tracked beyond the slot that holds it.
- Several pieces of browser I/O are not part of this model: `FileReader`, `Blob`, data URLs, photo file names, `saveToGallery` and `saveMissionPhoto` persistence, and the `photos-updated` and `telemetry-updated` events. A save is an opaque sink with a success flag.
- The `localStorage` JSON reads and writes and the Supabase calls in the missions hook are not modelled. Only the list transforms and the stored active id are kept. A remote fetch failure is the same as an empty remote list.
- Missions.MergeMissions: a shared id takes the remote row whole. The source's `{ ...local, ...remote }` spread differs only when a remote row lacks a column, which a row of the same table does not.
- The servo hook's loading of saved angles at mount is not modelled, because it is a `JSON.parse` of storage. Saving is kept as the last saved pair.
- ServoControl.Clamp: it works on integer angles, so the `Math.round` of a fractional angle is not modelled.
- The percentage `Math.round(received / chunks * 100)` is not modelled, because it is floating-point division.
- The DHT readings on the mission page (`DHT:` lines, `parseFloat`, `isNaN`) are not modelled, because they are floating point. The text callback ignores them here.
- React's effect order, state batching and stale closures are not modelled. Events are processed one at a time, in arrival order, against the current state. The mission page's second text subscriber, which does nothing, is also not modelled. It usually replaces the first in the single callback slot: both effects re-run, the second after the first, whenever the link object or the mission state changes, but a page-local change to `obstacleSessionId`, `obstaclePhotoCount` or `currentMissionId` re-runs only the first effect, which leaves `onText` live until the link object or the mission state next changes.
- Mission-end writes (`MISSION:PAUSE`, `S`), `finishMission`, toasts and navigation on the mission page are not modelled, because they are I/O. The handler's own state changes are kept.
- The mission page's button commands (`MISSION:START:AUTONOMOUS:<id>`, `MISSION:AUTO`, `MISSION:PAUSE`, `RESUME`, `MISSION:STOP`, `S`) are not recorded, and neither are its toasts, because they are I/O. A boolean says whether the awaited write succeeded. The transient `starting` state is not observable, because events are processed one at a time.
- The mission page's effect that writes `S` when the mission is paused, stopped or idle is not modelled, because it only writes a command.
- JsRuntime.ParseInt: it is exact on unbounded integers. JavaScript numbers lose precision above 2^53.
- The `parseMeta` and `decodeCH` copies inside the mission page are not used there. Its handlers receive headers and frames already decoded by the link.
- Scan filters (name prefix, service UUID) are not modelled, because they are plugin options. Overlapping scans are not modelled either. Each scan restarts the device list.
- The capture hook's `startNotifications` subscriptions replacing each other across captures are not modelled, because they are plugin state. The race between the first timeout and the first notification is not modelled either.
- NaN or negative durations are not modelled. Durations and timestamps are integers, and `formatDuration` of a negative value is not covered by the read-back lemmas.
